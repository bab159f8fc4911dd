/** Which 64-bit numbers nanopb takes where it wants one of 32 bits: tags, lengths and booleans. */
module PbVarint {
  import opened Coding
  import opened Keys
  import opened PbDecode
  import opened PbEncode
  import opened PbRoundTrip

  /** One more digit behind the first 32 bits: it must be zero, or continue a sign. */
  lemma HighStep(byte: Byte, rest: Bytes, bitpos: nat, result: nat)
    requires result < TWO32 && bitpos >= 35
    ensures TakeRest32([byte] + rest, bitpos, result) ==
      if ToNat(byte) % 128 != 0 && (result < 0x8000_0000 || ToNat(byte) != if bitpos < 63 then 0xFF else 0x01) then Fail
      else if byte >= 128 then TakeRest32(rest, bitpos + 7, result)
      else Got(result, rest)
  {
    FirstBytes([byte], rest);
  }

  /** The fifth byte: four bits fit, and a last byte may not have more. */
  lemma FifthStep(digit: nat, more: bool, rest: Bytes, result: nat)
    requires result < 0x1000_0000 && digit < 128
    ensures
      var sum := (result + digit * 0x1000_0000) % TWO32;
      TakeRest32([ToByte(if more then digit + 128 else digit)] + rest, 28, result)
        == if more then TakeRest32(rest, 35, sum) else if digit >= 16 then Fail else Got(sum, rest)
  {
    hide Pow2;
    Powers7();
    FirstBytes([ToByte(if more then digit + 128 else digit)], rest);
  }

  /** How large the bits from position 35 + 7 * `j` on may be. */
  function Bound(j: nat): nat
    requires j <= 4
  {
    if j == 0 then 0x2000_0000 else if j == 1 then 0x40_0000 else if j == 2 then 0x8000 else if j == 3 then 0x100 else 2
  }

  /** Every group of seven bits is all zeros or all ones, up to the top bit, which is set. */
  predicate Filler(w: nat, j: nat)
    requires j <= 4
    decreases 4 - j
  {
    if j == 4 then w == 1 else w >= 128 && (w % 128 == 0 || w % 128 == 127) && Filler(w / 128, j + 1)
  }

  lemma {:induction false} HighDigits(w: nat, rest: Bytes, j: nat, result: nat)
    requires j <= 4 && 0 < w < Bound(j) && result < TWO32
    ensures TakeRest32(Varint(w) + rest, 35 + 7 * j, result)
         == if result >= 0x8000_0000 && Filler(w, j) then Got(result, rest) else Fail
    decreases 4 - j
  {
    hide Varint, TakeRest32;
    VarintStep(w);
    if w < 128 {
      HighStep(ToByte(w), rest, 35 + 7 * j, result);
    } else {
      var byte := ToByte(w % 128 + 128);
      HighStep(byte, Varint(w / 128) + rest, 35 + 7 * j, result);
      Assoc([byte], Varint(w / 128), rest);
      HighDigits(w / 128, rest, j + 1, result);
    }
  }

  /** A digit that fits moves from the bytes to the result. */
  lemma LowStep(u: nat, k: nat, rest: Bytes)
    requires 1 <= k <= 3 && u / Scale(k) >= 128
    ensures u / Scale(k) / 128 == u / Scale(k + 1) && u % Scale(k + 1) < TWO32
    ensures TakeRest32(Varint(u / Scale(k)) + rest, 7 * k, u % Scale(k))
         == TakeRest32(Varint(u / Scale(k + 1)) + rest, 7 * (k + 1), u % Scale(k + 1))
  {
    hide Varint, TakeRest32;
    var v := u / Scale(k);
    Split(u, k);
    VarintStep(v);
    RestStep(v % 128, true, Varint(v / 128) + rest, k, u % Scale(k));
    Assoc([ToByte(v % 128 + 128)], Varint(v / 128), rest);
  }

  lemma Split(u: nat, k: nat)
    requires 1 <= k <= 3
    ensures
      var v := u / Scale(k);
      && v / 128 == u / Scale(k + 1) && u % Scale(k) + v % 128 * Scale(k) == u % Scale(k + 1) < TWO32
  {
    match k
    case 1 => SplitBy(u, 0x80);
    case 2 => SplitBy(u, 0x4000);
    case 3 => SplitBy(u, 0x20_0000);
  }

  lemma SplitBy(u: nat, s: nat)
    requires s == 0x80 || s == 0x4000 || s == 0x20_0000
    ensures u / s / 128 == u / (128 * s) && u % s + u / s % 128 * s == u % (128 * s)
  {
  }

  /**
   A 64-bit number is taken exactly if it has 32 bits, or its top bit and bit 31 are set and the four groups of seven
   bits from bit 35 on are each all zeros or all ones; bits 32 to 34 are not looked at.
   */
  lemma Varint32IsExact(u: nat, rest: Bytes)
    requires u < TWO64
    ensures TakeU32(Varint(u) + rest) ==
      if u < TWO32 then Got(u, rest)
      else if u % TWO32 >= 0x8000_0000 && Filler(u / 0x8_0000_0000, 0) then Got(u % TWO32, rest)
      else Fail
  {
    hide Varint, TakeRest32, Filler;
    if u < TWO32 {
      U32RoundTrip(u, rest);
    } else {
      LowDigits(u, rest);
      FifthDigit(u);
      var v := u / 0x1000_0000;
      VarintStep(v);
      if v < 128 {
        FifthStep(v, false, rest, u % 0x1000_0000);
        FillerIsLarge(u / 0x8_0000_0000);
      } else {
        FifthStep(v % 128, true, Varint(v / 128) + rest, u % 0x1000_0000);
        Assoc([ToByte(v % 128 + 128)], Varint(v / 128), rest);
        HighDigits(u / 0x8_0000_0000, rest, 0, u % TWO32);
      }
    }
  }

  lemma FifthDigit(u: nat)
    requires TWO32 <= u < TWO64
    ensures
      var v := u / 0x1000_0000;
      && v / 128 == u / 0x8_0000_0000 < 0x2000_0000 && v >= 16 && u % 0x1000_0000 < 0x1000_0000
      && (u % 0x1000_0000 + v % 128 * 0x1000_0000) % TWO32 == u % TWO32
  {
    var v := u / 0x1000_0000;
    assert u == v * 0x1000_0000 + u % 0x1000_0000;
    var d := v % 128;
    assert v == 128 * (v / 128) + d;
    assert u == v / 128 * 0x8_0000_0000 + (d * 0x1000_0000 + u % 0x1000_0000);
  }

  lemma FillerIsLarge(w: nat)
    ensures Filler(w, 0) ==> w >= 128
  {
  }

  lemma LowDigits(u: nat, rest: Bytes)
    requires u >= TWO32
    ensures TakeU32(Varint(u) + rest) == TakeRest32(Varint(u / 0x1000_0000) + rest, 28, u % 0x1000_0000)
  {
    hide TakeRest32, Varint;
    VarintStep(u);
    Assoc([ToByte(u % 128 + 128)], Varint(u / 128), rest);
    FirstBytes([ToByte(u % 128 + 128)], Varint(u / 128) + rest);
    assert TakeU32(Varint(u) + rest) == TakeRest32(Varint(u / Scale(1)) + rest, 7, u % Scale(1));
    LowStep(u, 1, rest);
    LowStep(u, 2, rest);
    LowStep(u, 3, rest);
  }

  /** A negative number of 32 bits, extended to 64, is taken for its low 32 bits. */
  lemma NegativeIsTaken(n: int, rest: Bytes)
    requires -0x8000_0000 <= n < 0
    ensures TakeU32(Varint(n + TWO64) + rest) == Got(n + TWO32, rest)
  {
    hide Varint, TakeU32;
    var u: nat := n + TWO64;
    assert u / 0x8_0000_0000 == 0x1FFF_FFFF && u % TWO32 == n + TWO32;
    AllOnes();
    Varint32IsExact(u, rest);
  }

  lemma AllOnes()
    ensures Filler(0x1FFF_FFFF, 0)
  {
    assert Filler(1, 4);
    assert Filler(0xFF, 3);
    assert Filler(0x7FFF, 2);
    assert Filler(0x3F_FFFF, 1);
  }

  /** But so is a number that is no such extension: 2^63 + 2^31 is taken for 2^31. */
  lemma LargeIsTaken(rest: Bytes)
    ensures TakeU32(Varint(0x8000_0000_8000_0000) + rest) == Got(0x8000_0000, rest)
  {
    hide Varint, TakeU32;
    assert 0x8000_0000_8000_0000 / 0x8_0000_0000 == 0x1000_0000 && 0x8000_0000_8000_0000 % TWO32 == 0x8000_0000;
    assert Filler(1, 4);
    assert Filler(0x80, 3);
    assert Filler(0x4000, 2);
    assert Filler(0x20_0000, 1);
    assert Filler(0x1000_0000, 0);
    Varint32IsExact(0x8000_0000_8000_0000, rest);
  }
}
