/** The Bloom filter policy: bits set by double hashing, and the query that never misses an added key. */
module Bloom {
  import opened Coding
  import opened Keys

  /** The 32-bit hash of a key; nothing is used of it but that it is a function. */
  type Hash = f: Bytes -> nat | forall k :: f(k) < 0x1_0000_0000 witness k => 0

  const MAX_PROBES: nat := 30

  /** Bits per key times ln 2, between 1 and 30. */
  function Probes(bitsPerKey: nat): (k: nat)
    ensures 1 <= k <= MAX_PROBES
  {
    var k := (bitsPerKey as real * 0.69).Floor;
    if k < 1 then 1 else if k > MAX_PROBES then MAX_PROBES else k
  }

  /** Rotate right by 17 bits. */
  function Delta(h: nat): (d: nat)
    requires h < TWO32
    ensures d < TWO32
  {
    (h as bv32).RotateRight(17) as nat
  }

  /** The shifts of the source are that rotation. */
  lemma DeltaIsShifts(h: nat)
    requires h < TWO32
    ensures
      var w := h as bv32;
      Delta(h) == ((w >> 17) | (w << 15)) as nat
  {
    RotationIsShifts(h as bv32);
  }

  lemma RotationIsShifts(w: bv32)
    ensures w.RotateRight(17) == (w >> 17) | (w << 15)
  {
  }

  /** The hash value of the `j`-th probe. */
  function Probe(h: nat, j: nat): (p: nat)
    requires h < TWO32
    ensures p < TWO32
  {
    if j == 0 then h else (Probe(h, j - 1) + Delta(h)) % TWO32
  }

  /** The bits of a key in a filter of `bits` bits. */
  function Marks(h: nat, k: nat, bits: nat): (m: set<nat>)
    requires h < TWO32 && bits > 0
    ensures forall q :: q in m ==> q < bits
  {
    if k == 0 then {} else Marks(h, k - 1, bits) + {Probe(h, k - 1) % bits}
  }

  function AllMarks(hash: Hash, keys: seq<Bytes>, k: nat, bits: nat): (m: set<nat>)
    requires bits > 0
    ensures forall q :: q in m ==> q < bits
  {
    if keys == [] then {} else AllMarks(hash, keys[..|keys| - 1], k, bits) + Marks(hash(keys[|keys| - 1]), k, bits)
  }

  lemma {:induction false} KeyIsMarked(hash: Hash, keys: seq<Bytes>, key: Bytes, k: nat, bits: nat)
    requires bits > 0 && key in keys
    ensures Marks(hash(key), k, bits) <= AllMarks(hash, keys, k, bits)
  {
    var init := keys[..|keys| - 1];
    if key != keys[|keys| - 1] {
      assert key in init;
      KeyIsMarked(hash, init, key, k, bits);
    }
  }

  // ---------------------------------------------------------------- bits of bytes

  type Bits = seq<bv8>

  function Mask(j: nat): bv8 requires j < 8 { (1 as bv8) << j }

  /** Bit `q` of an array. */
  predicate HasBit(array_: Bits, q: nat) requires q < 8 * |array_| { array_[q / 8] & Mask(q % 8) != 0 }

  lemma OrBits(x: bv8, j: nat, i: nat)
    requires j < 8 && i < 8
    ensures (x | Mask(j)) & Mask(i) != 0 <==> i == j || x & Mask(i) != 0
  {
    assert Mask(0) == 1 && Mask(1) == 2 && Mask(2) == 4 && Mask(3) == 8;
    assert Mask(4) == 16 && Mask(5) == 32 && Mask(6) == 64 && Mask(7) == 128;
  }

  function SetBit(array_: Bits, p: nat): (r: Bits)
    requires p < 8 * |array_|
    ensures |r| == |array_|
  {
    array_[p / 8 := array_[p / 8] | Mask(p % 8)]
  }

  lemma SetBitIs(array_: Bits, p: nat, q: nat)
    requires p < 8 * |array_| && q < 8 * |array_|
    ensures HasBit(SetBit(array_, p), q) <==> q == p || HasBit(array_, q)
  {
    OrBits(array_[p / 8], p % 8, q % 8);
    hide Mask;
  }

  function Pack(b: bv8): Byte { b as Byte }

  function Unpack(b: Byte): bv8 { b as bv8 }

  lemma UnpackPack(b: bv8)
    ensures Unpack(Pack(b)) == b
  {
  }

  function PackAll(bits: Bits): (r: Bytes)
    ensures |r| == |bits| && forall i :: 0 <= i < |bits| ==> r[i] == Pack(bits[i])
  {
    seq(|bits|, i requires 0 <= i < |bits| => Pack(bits[i]))
  }

  function UnpackAll(b: Bytes): (r: Bits)
    ensures |r| == |b| && forall i :: 0 <= i < |b| ==> r[i] == Unpack(b[i])
  {
    seq(|b|, i requires 0 <= i < |b| => Unpack(b[i]))
  }

  lemma UnpackPackAll(bits: Bits)
    ensures UnpackAll(PackAll(bits)) == bits
  {
    forall i | 0 <= i < |bits|
      ensures Unpack(Pack(bits[i])) == bits[i]
    {
      UnpackPack(bits[i]);
    }
    hide Pack, Unpack;
  }

  // ---------------------------------------------------------------- the filter

  /** A filter has exactly the bits of its keys, and the number of probes in its last byte. */
  ghost predicate IsFilter(hash: Hash, keys: seq<Bytes>, filter: Bytes) {
    && |filter| >= 2 && ToNat(filter[|filter| - 1]) <= MAX_PROBES
    && var bits := UnpackAll(filter[..|filter| - 1]);
       HoldsMarks(bits, AllMarks(hash, keys, ToNat(filter[|filter| - 1]), 8 * |bits|))
  }

  ghost predicate HoldsMarks(array_: Bits, marks: set<nat>) {
    forall q :: 0 <= q < 8 * |array_| ==> (HasBit(array_, q) <==> q in marks)
  }

  /** What a query answers: all of the key's bits are set. */
  predicate MayMatch(hash: Hash, key: Bytes, filter: Bytes) {
    if |filter| < 2 then false
    else
      var k, bits := ToNat(filter[|filter| - 1]), UnpackAll(filter[..|filter| - 1]);
      k > MAX_PROBES || forall q :: q in Marks(hash(key), k, 8 * |bits|) ==> HasBit(bits, q)
  }

  /** A filter never rejects a key it was made of. */
  lemma NoFalseNegatives(hash: Hash, keys: seq<Bytes>, filter: Bytes, key: Bytes)
    requires IsFilter(hash, keys, filter) && key in keys
    ensures MayMatch(hash, key, filter)
  {
    hide AllMarks, Marks, HasBit, UnpackAll;
    var k, bits := ToNat(filter[|filter| - 1]), UnpackAll(filter[..|filter| - 1]);
    if |bits| > 0 {
      KeyIsMarked(hash, keys, key, k, 8 * |bits|);
    }
  }

  // ---------------------------------------------------------------- when a filter matches

  /** Double hashing: the `j`-th bit of a key. */
  ghost function BitOf(h: nat, j: nat, bits: nat): nat
    requires h < TWO32 && bits > 0
  {
    (h + j * Delta(h)) % TWO32 % bits
  }

  ghost predicate HasBitOf(h: nat, k: nat, bits: nat, q: nat)
    requires h < TWO32 && bits > 0
  {
    exists j: nat :: j < k && q == BitOf(h, j, bits)
  }

  ghost predicate SomeHasBit(hash: Hash, keys: seq<Bytes>, k: nat, bits: nat, q: nat)
    requires bits > 0
  {
    exists i: nat :: i < |keys| && HasBitOf(hash(keys[i]), k, bits, q)
  }

  lemma {:induction false} ProbeIs(h: nat, j: nat)
    requires h < TWO32
    ensures Probe(h, j) == (h + j * Delta(h)) % TWO32
  {
    hide Delta;
    var d := Delta(h);
    if j == 0 {
      assert 0 * d == 0;
    } else {
      ProbeIs(h, j - 1);
      assert (j - 1) * d + d == j * d;
      AddMod(h + (j - 1) * d, d);
    }
  }

  lemma AddMod(a: nat, b: nat)
    ensures (a % TWO32 + b) % TWO32 == (a + b) % TWO32
  {
  }

  lemma {:induction false} MarksAre(h: nat, k: nat, bits: nat, q: nat)
    requires h < TWO32 && bits > 0
    ensures q in Marks(h, k, bits) <==> HasBitOf(h, k, bits, q)
  {
    hide Delta, Probe, BitOf;
    if k > 0 {
      MarksAre(h, k - 1, bits, q);
      ProbeIs(h, k - 1);
      assert BitOf(h, k - 1, bits) == Probe(h, k - 1) % bits by { BitIs(h, k - 1, bits); }
      if HasBitOf(h, k, bits, q) && q != BitOf(h, k - 1, bits) {
        var j: nat :| j < k && q == BitOf(h, j, bits);
      }
    }
  }

  lemma BitIs(h: nat, j: nat, bits: nat)
    requires h < TWO32 && bits > 0
    ensures BitOf(h, j, bits) == (h + j * Delta(h)) % TWO32 % bits
  {
  }

  lemma {:induction false} AllMarksAre(hash: Hash, keys: seq<Bytes>, k: nat, bits: nat, q: nat)
    requires bits > 0
    ensures q in AllMarks(hash, keys, k, bits) <==> SomeHasBit(hash, keys, k, bits, q)
  {
    hide Marks, HasBitOf;
    if keys != [] {
      var n := |keys| - 1;
      AllMarksAre(hash, keys[..n], k, bits, q);
      MarksAre(hash(keys[n]), k, bits, q);
      if SomeHasBit(hash, keys, k, bits, q) && !HasBitOf(hash(keys[n]), k, bits, q) {
        var i: nat :| i < |keys| && HasBitOf(hash(keys[i]), k, bits, q);
        assert keys[..n][i] == keys[i];
      }
      if SomeHasBit(hash, keys[..n], k, bits, q) {
        var i: nat :| i < |keys[..n]| && HasBitOf(hash(keys[..n][i]), k, bits, q);
        assert keys[..n][i] == keys[i];
      }
    }
  }

  /** A filter of some keys matches a key exactly if each bit of that key is a bit of one of them. */
  lemma MatchIsExact(hash: Hash, keys: seq<Bytes>, filter: Bytes, key: Bytes)
    requires IsFilter(hash, keys, filter)
    ensures
      var k, bits := ToNat(filter[|filter| - 1]), 8 * (|filter| - 1);
      MayMatch(hash, key, filter) <==> forall j: nat :: j < k ==> SomeHasBit(hash, keys, k, bits, BitOf(hash(key), j, bits))
  {
    hide AllMarks, Marks, HasBit, UnpackAll, HasBitOf, SomeHasBit, BitOf;
    var k, bits := ToNat(filter[|filter| - 1]), 8 * (|filter| - 1);
    var array_ := UnpackAll(filter[..|filter| - 1]);
    forall j: nat | j < k
      ensures BitOf(hash(key), j, bits) in Marks(hash(key), k, bits)
      ensures BitOf(hash(key), j, bits) < bits
      ensures HasBit(array_, BitOf(hash(key), j, bits)) <==> SomeHasBit(hash, keys, k, bits, BitOf(hash(key), j, bits))
    {
      var q := BitOf(hash(key), j, bits);
      IsBitOf(hash(key), k, bits, j);
      MarksAre(hash(key), k, bits, q);
      AllMarksAre(hash, keys, k, bits, q);
    }
    forall q | q in Marks(hash(key), k, bits)
      ensures exists j: nat :: j < k && q == BitOf(hash(key), j, bits)
    {
      MarksAre(hash(key), k, bits, q);
      OneBitOf(hash(key), k, bits, q);
    }
  }

  lemma IsBitOf(h: nat, k: nat, bits: nat, j: nat)
    requires h < TWO32 && bits > 0 && j < k
    ensures HasBitOf(h, k, bits, BitOf(h, j, bits)) && BitOf(h, j, bits) < bits
  {
  }

  lemma OneBitOf(h: nat, k: nat, bits: nat, q: nat)
    requires h < TWO32 && bits > 0 && HasBitOf(h, k, bits, q)
    ensures exists j: nat :: j < k && q == BitOf(h, j, bits)
  {
  }

  /** At least 64 bits, and whole bytes. */
  function FilterBytes(keys: nat, bitsPerKey: nat): nat {
    var bits := keys * bitsPerKey;
    ((if bits < 64 then 64 else bits) + 7) / 8
  }

  /** Whole bytes for every bit asked for, at least 64, and none to spare. */
  lemma FilterIsTight(keys: nat, bitsPerKey: nat)
    ensures
      var asked := if keys * bitsPerKey < 64 then 64 else keys * bitsPerKey;
      asked <= 8 * FilterBytes(keys, bitsPerKey) < asked + 8
  {
    var bits := keys * bitsPerKey;
  }

  /** The number of probes is 69 hundredths of the bits per key, rounded down, but at least one and at most 30. */
  lemma ProbesAreTight(bitsPerKey: nat)
    ensures
      var k := Probes(bitsPerKey);
      if bitsPerKey < 2 then k == 1 else if bitsPerKey > 44 then k == 30 else 100 * k <= 69 * bitsPerKey < 100 * (k + 1)
  {
  }

  class BloomFilterPolicy {
    const hash: Hash
    const bitsPerKey: nat
    const k: nat

    constructor (hash: Hash, bitsPerKey: nat)
      ensures this.hash == hash && Valid()
    {
      this.hash, this.bitsPerKey, k := hash, bitsPerKey, Probes(bitsPerKey);
    }

    predicate Valid() { k == Probes(bitsPerKey) }

    /** Append a filter of the keys. */
    method CreateFilter(keys: seq<Bytes>, dst: Bytes) returns (r: Bytes)
      requires Valid()
      ensures |r| == |dst| + FilterBytes(|keys|, bitsPerKey) + 1 && r[..|dst|] == dst && IsFilter(hash, keys, r[|dst|..])
      ensures ToNat(r[|r| - 1]) == Probes(bitsPerKey)
    {
      hide AllMarks, Marks, HasBit, UnpackAll, PackAll, SetBit, Probe, Delta;
      var bits := |keys| * bitsPerKey;
      if bits < 64 { bits := 64; }
      var bytes := (bits + 7) / 8;
      bits := bytes * 8;
      var array_: Bits := seq(bytes, _ => 0);
      NoBits(bytes);
      NoKeys(hash, k, bits);
      for i := 0 to |keys|
        invariant |array_| == bytes && HoldsMarks(array_, AllMarks(hash, keys[..i], k, bits))
      {
        var h := hash(keys[i]);
        ghost var h0, before := h, AllMarks(hash, keys[..i], k, bits);
        var delta := (((h as bv32) >> 17) | ((h as bv32) << 15)) as nat;
        DeltaIsShifts(h);
        NoProbes(h0, bits, before);
        for j := 0 to k
          invariant |array_| == bytes && h == Probe(h0, j) && HoldsMarks(array_, before + Marks(h0, j, bits))
        {
          var bitpos := h % bits;
          MarksOneMore(h0, j, bits, array_, before);
          array_ := SetBit(array_, bitpos);
          h := (h + delta) % TWO32;
        }
        KeysStep(hash, keys, i, k, bits);
      }
      assert keys[..|keys|] == keys;
      r := dst + PackAll(array_) + [ToByte(k)];
      UnpackPackAll(array_);
      assert r[|dst|..] == PackAll(array_) + [ToByte(k)];
      assert r[|dst|..][..bytes] == PackAll(array_);
    }

    /** Probe the key's bits until one is missing. */
    method KeyMayMatch(key: Bytes, filter: Bytes) returns (r: bool)
      ensures r == MayMatch(hash, key, filter)
    {
      hide AllMarks, Marks, HasBit, UnpackAll, PackAll, Probe, Delta;
      if |filter| < 2 { return false; }
      var array_ := UnpackAll(filter[..|filter| - 1]);
      var bits := (|filter| - 1) * 8;
      var probes := ToNat(filter[|filter| - 1]);
      if probes > MAX_PROBES { return true; }
      var h := hash(key);
      ghost var h0 := h;
      var delta := (((h as bv32) >> 17) | ((h as bv32) << 15)) as nat;
      DeltaIsShifts(h);
      NoProbes(h0, bits, {});
      for j := 0 to probes
        invariant h == Probe(h0, j) && forall q :: q in Marks(h0, j, bits) ==> HasBit(array_, q)
      {
        var bitpos := h % bits;
        MarkStep(h0, j, probes, bits);
        if !HasBit(array_, bitpos) { return false; }
        h := (h + delta) % TWO32;
      }
      r := true;
    }
  }

  lemma NoBits(bytes: nat)
    ensures HoldsMarks(seq(bytes, _ => 0), {})
  {
    hide Mask;
  }

  lemma NoKeys(hash: Hash, k: nat, bits: nat)
    requires bits > 0
    ensures AllMarks(hash, [], k, bits) == {} && forall keys: seq<Bytes> :: keys[..0] == []
  {
  }

  lemma NoProbes(h: nat, bits: nat, before: set<nat>)
    requires h < TWO32 && bits > 0
    ensures Probe(h, 0) == h && Marks(h, 0, bits) == {} && before + Marks(h, 0, bits) == before
  {
  }

  lemma MarksOneMore(h: nat, j: nat, bits: nat, array_: Bits, before: set<nat>)
    requires h < TWO32 && bits == 8 * |array_| > 0 && HoldsMarks(array_, before + Marks(h, j, bits))
    ensures HoldsMarks(SetBit(array_, Probe(h, j) % bits), before + Marks(h, j + 1, bits))
    ensures Probe(h, j + 1) == (Probe(h, j) + Delta(h)) % TWO32
  {
    var p := Probe(h, j) % bits;
    hide HasBit, SetBit, Delta;
    forall q | 0 <= q < bits
      ensures HasBit(SetBit(array_, p), q) <==> q in before + Marks(h, j + 1, bits)
    {
      SetBitIs(array_, p, q);
    }
  }

  lemma KeysStep(hash: Hash, keys: seq<Bytes>, i: nat, k: nat, bits: nat)
    requires i < |keys| && bits > 0
    ensures AllMarks(hash, keys[..i + 1], k, bits) == AllMarks(hash, keys[..i], k, bits) + Marks(hash(keys[i]), k, bits)
  {
    hide Marks;
    assert keys[..i + 1][..i] == keys[..i];
  }

  lemma {:induction false} MarkStep(h: nat, j: nat, k: nat, bits: nat)
    requires h < TWO32 && bits > 0 && j < k
    ensures Probe(h, j + 1) == (Probe(h, j) + Delta(h)) % TWO32
    ensures Marks(h, j + 1, bits) == Marks(h, j, bits) + {Probe(h, j) % bits}
    ensures Probe(h, j) % bits in Marks(h, k, bits)
    decreases k
  {
    hide Delta;
    if j + 1 < k {
      MarkStep(h, j, k - 1, bits);
    }
  }
}
