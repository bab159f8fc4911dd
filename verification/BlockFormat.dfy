/** The layout of a table block: prefix-compressed entries, restart points, and how one entry is decoded. */
module BlockFormat {
  import opened Coding
  import opened Keys

  datatype Pair = Pair(key: Bytes, value: Bytes)

  /** One entry whose key shares its first `shared` bytes with the key before it. */
  function EntryBytes(shared: nat, e: Pair): (b: Bytes)
    requires shared <= |e.key|
    ensures |b| >= 3
  {
    Varint(shared) + Varint(|e.key| - shared) + Varint(|e.value|) + e.key[shared..] + e.value
  }

  datatype Header = Header(shared: nat, nonShared: nat, valueLength: nat)

  function TakeThree(input: Bytes): Taken<Header> {
    match TakeVarint32(input)
    case Fail => Fail
    case Got(shared, r1) =>
      match TakeVarint32(r1)
      case Fail => Fail
      case Got(nonShared, r2) =>
        match TakeVarint32(r2)
        case Fail => Fail
        case Got(valueLength, r3) => Got(Header(shared, nonShared, valueLength), r3)
  }

  /** Lengths that are all below 128 take one byte each; otherwise each is a varint. */
  function TakeLengths(input: Bytes): Taken<Header>
    requires |input| >= 3
  {
    if input[0] < 128 && input[1] < 128 && input[2] < 128 then
      Got(Header(ToNat(input[0]), ToNat(input[1]), ToNat(input[2])), input[3..])
    else TakeThree(input)
  }

  /** `DecodeEntry` on the bytes up to the restart array: the lengths, and the key delta onwards. */
  function DecodeEntry(input: Bytes): (r: Taken<Header>)
    ensures r.Got? ==> (r.value.nonShared + r.value.valueLength) % TWO32 <= |r.rest|
  {
    if |input| < 3 then Fail
    else
      match TakeLengths(input)
      case Fail => Fail
      case Got(h, rest) => if |rest| < (h.nonShared + h.valueLength) % TWO32 then Fail else Got(h, rest)
  }

  lemma VarintByte(v: nat)
    ensures Varint(v)[0] < 128 <==> v < 128
    ensures v < 128 ==> Varint(v) == [ToByte(v)]
  {
  }

  lemma ThreeRoundTrip(a: nat, b: nat, c: nat, rest: Bytes)
    requires a < TWO32 && b < TWO32 && c < TWO32
    ensures TakeThree(Varint(a) + (Varint(b) + (Varint(c) + rest))) == Got(Header(a, b, c), rest)
  {
    hide TakeVarint32, Varint;
    Varint32RoundTrip(a, Varint(b) + (Varint(c) + rest));
    Varint32RoundTrip(b, Varint(c) + rest);
    Varint32RoundTrip(c, rest);
  }

  lemma LengthsRoundTrip(a: nat, b: nat, c: nat, rest: Bytes)
    requires a < TWO32 && b < TWO32 && c < TWO32
    ensures TakeLengths(Varint(a) + (Varint(b) + (Varint(c) + rest))) == Got(Header(a, b, c), rest)
  {
    hide TakeThree, Varint;
    var input := Varint(a) + (Varint(b) + (Varint(c) + rest));
    VarintByte(a);
    VarintByte(b);
    VarintByte(c);
    ThreeRoundTrip(a, b, c, rest);
    assert input[0] == Varint(a)[0];
    if a < 128 {
      assert input[1] == Varint(b)[0];
      if b < 128 {
        assert input[2] == Varint(c)[0];
        assert c < 128 ==> input[3..] == rest;
      }
    }
  }

  lemma EntryRoundTrip(shared: nat, e: Pair, rest: Bytes)
    requires shared <= |e.key| < TWO32 && |e.key| - shared + |e.value| < TWO32
    ensures DecodeEntry(EntryBytes(shared, e) + rest)
         == Got(Header(shared, |e.key| - shared, |e.value|), e.key[shared..] + e.value + rest)
  {
    hide TakeLengths, Varint;
    var body := e.key[shared..] + e.value + rest;
    LengthsRoundTrip(shared, |e.key| - shared, |e.value|, body);
    var lengths := Varint(shared) + Varint(|e.key| - shared) + Varint(|e.value|);
    assert EntryBytes(shared, e) + rest == lengths + body;
    assert lengths + body == Varint(shared) + (Varint(|e.key| - shared) + (Varint(|e.value|) + body));
  }

  // ---------------------------------------------------------------- the whole block

  /**
   What a block holds: its entries, where each starts (and where the last ends), how much of each key is
   shared, and which entries are restart points.
   */
  datatype Layout = Layout(entries: seq<Pair>, offs: seq<nat>, shared: seq<nat>, marks: seq<nat>)

  ghost predicate Starts(offs: seq<nat>, n: nat) {
    |offs| == n + 1 && offs[0] == 0 && forall i, j :: 0 <= i < j <= n ==> offs[i] < offs[j]
  }

  /** A key shares a prefix only with the key before it, and restart points share nothing. */
  ghost predicate Shares(entries: seq<Pair>, shared: seq<nat>) {
    && |shared| == |entries|
    && (forall i :: 0 <= i < |entries| ==> shared[i] <= |entries[i].key|)
    && (entries != [] ==> shared[0] == 0)
    && (forall i :: 0 < i < |entries| ==>
          shared[i] <= |entries[i - 1].key| && entries[i - 1].key[..shared[i]] == entries[i].key[..shared[i]])
  }

  ghost predicate Restarts(marks: seq<nat>, shared: seq<nat>, n: nat) {
    && marks != [] && marks[0] == 0
    && (forall i, j :: 0 <= i < j < |marks| ==> marks[i] < marks[j])
    && (forall i :: 0 < i < |marks| ==> marks[i] < n)
    && |shared| == n && (forall i :: 0 <= i < |marks| && marks[i] < n ==> shared[marks[i]] == 0)
  }

  ghost predicate EntryAt(data: Bytes, l: Layout, i: nat)
    requires i < |l.entries| && Starts(l.offs, |l.entries|) && Shares(l.entries, l.shared)
  {
    && l.offs[i + 1] <= |data|
    && data[l.offs[i]..l.offs[i + 1]] == EntryBytes(l.shared[i], l.entries[i])
    && |l.entries[i].key| < TWO32 && |l.entries[i].value| < TWO32
  }

  /** The bytes up to the restart array are the entries one after the other. */
  ghost predicate Holds(data: Bytes, l: Layout) {
    && Starts(l.offs, |l.entries|) && Shares(l.entries, l.shared)
    && Restarts(l.marks, l.shared, |l.entries|)
    && forall i :: 0 <= i < |l.entries| ==> EntryAt(data, l, i)
  }

  /** The restart array and its length, as four-byte integers. */
  ghost predicate RestartArray(block: Bytes, at: nat, l: Layout)
    requires Starts(l.offs, |l.entries|) && Restarts(l.marks, l.shared, |l.entries|)
  {
    && |block| == at + 4 * |l.marks| + 4 && |block| < TWO32
    && DecodeFixed32(block[|block| - 4..]) == |l.marks|
    && forall i :: 0 <= i < |l.marks| ==>
         DecodeFixed32(block[at + 4 * i..at + 4 * i + 4]) == l.offs[Mark(l, i)]
  }

  ghost function Mark(l: Layout, i: nat): (m: nat)
    requires i < |l.marks| && Restarts(l.marks, l.shared, |l.entries|)
    ensures m == l.marks[i] <= |l.entries|
  {
    l.marks[i]
  }

  /** A finished block. */
  ghost predicate Encodes(block: Bytes, l: Layout) {
    && Holds(block, l) && l.offs[|l.entries|] + 8 <= |block|
    && RestartArray(block, l.offs[|l.entries|], l)
  }
}
