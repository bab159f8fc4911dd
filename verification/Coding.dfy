/** Fixed-width and variable-width integers as bytes, and length-prefixed strings. */
module Coding {
  import opened Keys

  function ToByte(n: int): Byte requires 0 <= n < 256 { n }

  function ToNat(b: Byte): nat { b }

  // ---------------------------------------------------------------- fixed width

  function EncodeFixed32(v: nat): (r: Bytes)
    requires v < 0x1_0000_0000
    ensures |r| == 4
  {
    [ToByte(v % 256), ToByte(v / 256 % 256), ToByte(v / 65536 % 256), ToByte(v / 16777216)]
  }

  function DecodeFixed32(b: Bytes): (v: nat)
    requires |b| == 4
    ensures v < 0x1_0000_0000
  {
    ToNat(b[0]) + ToNat(b[1]) * 256 + ToNat(b[2]) * 65536 + ToNat(b[3]) * 16777216
  }

  lemma FixedRoundTrip(v: nat)
    requires v < 0x1_0000_0000
    ensures DecodeFixed32(EncodeFixed32(v)) == v
  {
    var a := v / 256;
    var b := a / 256;
    assert v / 65536 == b && v / 16777216 == b / 256;
    assert v == 256 * a + v % 256 && a == 256 * b + a % 256;
  }

  /** Eight bytes are the two halves, low half first. */
  function EncodeFixed64(v: nat): (r: Bytes)
    requires v < 0x1_0000_0000_0000_0000
    ensures |r| == 8
  {
    EncodeFixed32(v % 0x1_0000_0000) + EncodeFixed32(v / 0x1_0000_0000)
  }

  function DecodeFixed64(b: Bytes): (v: nat)
    requires |b| == 8
    ensures v < 0x1_0000_0000_0000_0000
  {
    DecodeFixed32(b[..4]) + DecodeFixed32(b[4..]) * 0x1_0000_0000
  }

  lemma FixedIsBytes(b: Bytes)
    requires |b| == 4
    ensures EncodeFixed32(DecodeFixed32(b)) == b
  {
    FourDigits(ToNat(b[0]), ToNat(b[1]), ToNat(b[2]), ToNat(b[3]));
    assert b == [b[0], b[1], b[2], b[3]];
  }

  lemma FourDigits(a: nat, b: nat, c: nat, d: nat)
    requires a < 256 && b < 256 && c < 256 && d < 256
    ensures
      var v := a + b * 256 + c * 65536 + d * 16777216;
      v % 256 == a && v / 256 % 256 == b && v / 65536 % 256 == c && v / 16777216 == d
  {
    var v := a + b * 256 + c * 65536 + d * 16777216;
    var w := b + c * 256 + d * 65536;
    var x := c + d * 256;
    assert v == a + 256 * w && w == b + 256 * x;
    assert v / 256 == w && v / 65536 == x && v / 16777216 == d;
  }

  lemma Fixed64RoundTrip(v: nat)
    requires v < 0x1_0000_0000_0000_0000
    ensures DecodeFixed64(EncodeFixed64(v)) == v
  {
    var lo, hi := v % 0x1_0000_0000, v / 0x1_0000_0000;
    FixedRoundTrip(lo);
    FixedRoundTrip(hi);
    hide EncodeFixed32, DecodeFixed32;
    var e := EncodeFixed64(v);
    assert e[..4] == EncodeFixed32(lo) && e[4..] == EncodeFixed32(hi);
  }

  // ---------------------------------------------------------------- varints

  const TWO32: nat := 0x1_0000_0000
  const TWO64: nat := 0x1_0000_0000_0000_0000

  function Pow2(n: nat): (p: nat)
    ensures p > 0
  {
    if n == 0 then 1 else 2 * Pow2(n - 1)
  }

  function Zeros(n: nat): (z: Bytes)
    ensures |z| == n && forall i :: 0 <= i < n ==> z[i] == 0
  {
    seq(n, _ => 0)
  }

  /** Seven bits a byte, low bits first; every byte but the last has its top bit set. */
  function Varint(v: nat): (r: Bytes)
    ensures r != []
  {
    if v < 128 then [ToByte(v)] else [ToByte(v % 128 + 128)] + Varint(v / 128)
  }

  /** A value taken from the front of the input, and what is left. */
  datatype Taken<+T> = Fail | Got(value: T, rest: Bytes)

  /** At most `n` bytes of a varint, before any truncation to a machine width. */
  function TakeDigits(input: Bytes, n: nat): Taken<nat> {
    if n == 0 || input == [] then Fail
    else if input[0] < 128 then Got(ToNat(input[0]), input[1..])
    else
      match TakeDigits(input[1..], n - 1)
      case Fail => Fail
      case Got(v, rest) => Got(ToNat(input[0]) - 128 + 128 * v, rest)
  }

  lemma {:induction false} DigitsShrink(input: Bytes, n: nat)
    ensures TakeDigits(input, n).Got? ==> |TakeDigits(input, n).rest| < |input|
    decreases n
  {
    if n > 0 && input != [] {
      DigitsShrink(input[1..], n - 1);
    }
  }

  /** A varint of at most `n` bytes, truncated to `width`. */
  function TakeVarint(input: Bytes, n: nat, width: nat): Taken<nat>
    requires width > 0
  {
    match TakeDigits(input, n)
    case Fail => Fail
    case Got(v, rest) => Got(v % width, rest)
  }

  function TakeVarint32(input: Bytes): Taken<nat> { TakeVarint(input, 5, TWO32) }

  function TakeVarint64(input: Bytes): Taken<nat> { TakeVarint(input, 10, TWO64) }

  function Pow128(n: nat): (r: nat)
    ensures r > 0
  {
    if n == 0 then 1 else 128 * Pow128(n - 1)
  }

  /** Five digits hold 32 bits and ten hold 64. */
  lemma Powers()
    ensures Pow128(5) >= TWO32 && Pow128(10) >= TWO64
  {
    assert Pow128(1) == 128;
    assert Pow128(2) == 0x4000;
    assert Pow128(3) == 0x20_0000;
    assert Pow128(4) == 0x1000_0000;
    assert Pow128(5) == 0x8_0000_0000;
    assert Pow128(6) == 0x400_0000_0000;
    assert Pow128(7) == 0x2_0000_0000_0000;
    assert Pow128(8) == 0x100_0000_0000_0000;
    assert Pow128(9) == 0x8000_0000_0000_0000;
  }

  lemma {:induction false} DigitsRoundTrip(v: nat, rest: Bytes, n: nat)
    requires n > 0 && v < Pow128(n)
    ensures TakeDigits(Varint(v) + rest, n) == Got(v, rest)
    decreases n
  {
    var all := Varint(v) + rest;
    if v < 128 {
      assert all[1..] == rest;
    } else {
      assert n > 0;
      DigitsRoundTrip(v / 128, rest, n - 1);
      assert all[1..] == Varint(v / 128) + rest;
    }
  }

  lemma Varint32RoundTrip(v: nat, rest: Bytes)
    requires v < TWO32
    ensures TakeVarint32(Varint(v) + rest) == Got(v, rest)
  {
    Powers();
    hide Varint, TakeDigits;
    DigitsRoundTrip(v, rest, 5);
  }

  lemma Varint64RoundTrip(v: nat, rest: Bytes)
    requires v < TWO64
    ensures TakeVarint64(Varint(v) + rest) == Got(v, rest)
  {
    Powers();
    hide Varint, TakeDigits;
    DigitsRoundTrip(v, rest, 10);
  }

  /** `EncodeVarint64`: shift seven bits out per turn. */
  method EncodeVarint64(value: nat) returns (dst: Bytes)
    ensures dst == Varint(value)
  {
    var v := value;
    dst := [];
    while v >= 128
      invariant dst + Varint(v) == Varint(value)
    {
      assert dst + Varint(v) == (dst + [ToByte(v % 128 + 128)]) + Varint(v / 128);
      dst := dst + [ToByte(v % 128 + 128)];
      v := v / 128;
    }
    dst := dst + [ToByte(v)];
  }

  /** `EncodeVarint32`: the same encoding with its five lengths written out. */
  method EncodeVarint32(v: nat) returns (dst: Bytes)
    requires v < TWO32
    ensures dst == Varint(v)
  {
    var a := v / 128;
    var b := a / 128;
    var c := b / 128;
    var d := c / 128;
    if a == 0 {
      dst := [ToByte(v)];
    } else if b == 0 {
      dst := [ToByte(v % 128 + 128), ToByte(a)];
    } else if c == 0 {
      dst := [ToByte(v % 128 + 128), ToByte(a % 128 + 128), ToByte(b)];
    } else if d == 0 {
      dst := [ToByte(v % 128 + 128), ToByte(a % 128 + 128), ToByte(b % 128 + 128), ToByte(c)];
    } else {
      dst := [ToByte(v % 128 + 128), ToByte(a % 128 + 128), ToByte(b % 128 + 128), ToByte(c % 128 + 128), ToByte(d)];
    }
    Unfold5(v);
  }

  lemma Unfold5(v: nat)
    ensures
      var a := v / 128;
      var b := a / 128;
      var c := b / 128;
      && (v >= 128 ==> Varint(v) == [ToByte(v % 128 + 128)] + Varint(a))
      && (a >= 128 ==> Varint(a) == [ToByte(a % 128 + 128)] + Varint(b))
      && (b >= 128 ==> Varint(b) == [ToByte(b % 128 + 128)] + Varint(c))
      && (c >= 128 ==> Varint(c) == [ToByte(c % 128 + 128)] + Varint(c / 128))
  {
  }

  /** `VarintLength` counts the bytes without writing them. */
  method VarintLength(value: nat) returns (len: nat)
    ensures len == |Varint(value)|
  {
    var v := value;
    len := 1;
    while v >= 128
      invariant len + |Varint(v)| == |Varint(value)| + 1
    {
      v := v / 128;
      len := len + 1;
    }
  }

  /** The integer widths that are read. */
  predicate IsWidth(width: nat) { width == TWO32 || width == TWO64 }

  lemma AddDigit(result: nat, digit: nat, scale: nat, more: nat, width: nat)
    requires IsWidth(width)
    ensures ((result + digit * scale) % width + scale * 128 * more) % width == (result + scale * (digit + 128 * more)) % width
  {
    assert scale * (digit + 128 * more) == digit * scale + scale * 128 * more;
    ModAdd(result + digit * scale, scale * 128 * more, width);
  }

  lemma ModAdd(a: nat, b: nat, width: nat)
    requires IsWidth(width)
    ensures (a % width + b) % width == (a + b) % width
  {
    if width == TWO32 {
      Mod32(a, b);
    } else {
      Mod64(a, b);
    }
  }

  lemma WidthIsPositive(width: nat)
    requires IsWidth(width)
    ensures width > 0
  {
  }

  lemma Mod32(a: nat, b: nat)
    ensures (a % TWO32 + b) % TWO32 == (a + b) % TWO32
  {
  }

  lemma Mod64(a: nat, b: nat)
    ensures (a % TWO64 + b) % TWO64 == (a + b) % TWO64
  {
  }

  lemma DigitStep(input: Bytes, n: nat)
    requires n > 0 && input != []
    ensures
      var byte := ToNat(input[0]);
      if byte < 128 then TakeDigits(input, n) == Got(byte, input[1..])
      else
        match TakeDigits(input[1..], n - 1)
        case Fail => TakeDigits(input, n) == Fail
        case Got(v, rest) => TakeDigits(input, n) == Got(byte - 128 + 128 * v, rest)
  {
  }

  /** The digits still to come complete what was read so far to the whole varint. */
  ghost predicate SoFar(whole: Taken<nat>, left: Bytes, n: nat, result: nat, scale: nat, width: nat)
    requires IsWidth(width)
  {
    match TakeDigits(left, n)
    case Fail => whole == Fail
    case Got(v, rest) => whole == Got((result + scale * v) % width, rest)
  }

  lemma MoreDigits(whole: Taken<nat>, left: Bytes, n: nat, result: nat, scale: nat, width: nat)
    requires IsWidth(width) && SoFar(whole, left, n, result, scale, width) && n > 0 && left != [] && ToNat(left[0]) >= 128
    ensures width > 0 && SoFar(whole, left[1..], n - 1, (result + (ToNat(left[0]) - 128) * scale) % width, scale * 128, width)
  {
    hide TakeDigits, IsWidth, ToNat;
    WidthIsPositive(width);
    DigitStep(left, n);
    if TakeDigits(left[1..], n - 1).Got? {
      AddDigit(result, ToNat(left[0]) - 128, scale, TakeDigits(left[1..], n - 1).value, width);
    }
  }

  lemma LastDigit(whole: Taken<nat>, left: Bytes, n: nat, result: nat, scale: nat, width: nat)
    requires IsWidth(width) && SoFar(whole, left, n, result, scale, width) && n > 0 && left != [] && ToNat(left[0]) < 128
    ensures width > 0 && whole == Got((result + ToNat(left[0]) * scale) % width, left[1..])
  {
    hide TakeDigits, IsWidth, ToNat;
    WidthIsPositive(width);
    DigitStep(left, n);
    assert scale * ToNat(left[0]) == ToNat(left[0]) * scale;
  }

  lemma NoMoreDigits(whole: Taken<nat>, left: Bytes, n: nat, result: nat, scale: nat, width: nat)
    requires IsWidth(width) && SoFar(whole, left, n, result, scale, width) && (n == 0 || left == [])
    ensures whole == Fail
  {
    hide IsWidth;
  }

  lemma FirstDigit(input: Bytes, n: nat, width: nat)
    requires IsWidth(width)
    ensures SoFar(TakeVarint(input, n, width), input, n, 0, 1, width)
  {
    hide TakeDigits;
  }

  /** `GetVarint32Ptr` and `GetVarint64Ptr`: or together shifted digits until one without its top bit. */
  method GetVarintPtr(input: Bytes, n: nat, width: nat) returns (r: Taken<nat>)
    requires IsWidth(width)
    ensures r == TakeVarint(input, n, width)
  {
    var p: nat, k: nat, result: nat, scale: nat := 0, 0, 0, 1;
    hide SoFar, IsWidth, TakeVarint;
    WidthIsPositive(width);
    FirstDigit(input, n, width);
    ghost var whole := TakeVarint(input, n, width);
    assert input[0..] == input;
    while k < n && p < |input|
      invariant p == k <= n && p <= |input| && SoFar(whole, input[p..], n - k, result, scale, width)
    {
      var byte := ToNat(input[p]);
      assert input[p..][1..] == input[p + 1..];
      if byte >= 128 {
        MoreDigits(whole, input[p..], n - k, result, scale, width);
        result := (result + (byte - 128) * scale) % width;
        scale := scale * 128;
      } else {
        LastDigit(whole, input[p..], n - k, result, scale, width);
        return Got((result + byte * scale) % width, input[p + 1..]);
      }
      p := p + 1;
      k := k + 1;
    }
    NoMoreDigits(whole, input[p..], n - k, result, scale, width);
    return Fail;
  }

  lemma Assoc(a: Bytes, b: Bytes, c: Bytes)
    ensures (a + b) + c == a + (b + c)
  {
  }

  // ---------------------------------------------------------------- length-prefixed strings

  function LengthPrefixed(s: Bytes): Bytes { Varint(|s|) + s }

  function TakeLengthPrefixed(input: Bytes): Taken<Bytes> {
    match TakeVarint32(input)
    case Fail => Fail
    case Got(len, rest) => if len <= |rest| then Got(rest[..len], rest[len..]) else Fail
  }

  lemma LengthPrefixedRoundTrip(s: Bytes, rest: Bytes)
    requires |s| < TWO32
    ensures TakeLengthPrefixed(LengthPrefixed(s) + rest) == Got(s, rest)
  {
    hide TakeVarint32, Varint;
    assert Varint(|s|) + s + rest == Varint(|s|) + (s + rest);
    Varint32RoundTrip(|s|, s + rest);
    assert (s + rest)[..|s|] == s && (s + rest)[|s|..] == rest;
  }

  lemma {:induction false} VarintSize(v: nat, n: nat)
    requires n > 0 && v < Pow128(n)
    ensures |Varint(v)| <= n
    decreases n
  {
    if v >= 128 {
      VarintSize(v / 128, n - 1);
    }
  }

  // ---------------------------------------------------------------- arrays of 32-bit integers

  ghost predicate Narrow(ns: seq<nat>) {
    forall i :: 0 <= i < |ns| ==> ns[i] < TWO32
  }

  function FixedArray(ns: seq<nat>): (b: Bytes)
    requires Narrow(ns)
    ensures |b| == 4 * |ns|
  {
    if ns == [] then [] else EncodeFixed32(ns[0]) + FixedArray(ns[1..])
  }

  lemma {:induction false} FixedArrayAt(ns: seq<nat>, i: nat)
    requires Narrow(ns) && i < |ns|
    ensures FixedArray(ns)[4 * i..4 * i + 4] == EncodeFixed32(ns[i])
  {
    hide EncodeFixed32;
    if i > 0 {
      FixedArrayAt(ns[1..], i - 1);
      var tail := FixedArray(ns[1..]);
      assert FixedArray(ns)[4 * i..4 * i + 4] == tail[4 * (i - 1)..4 * (i - 1) + 4];
    } else {
      assert FixedArray(ns)[0..4] == EncodeFixed32(ns[0]);
    }
  }

  lemma FixedStep(ns: seq<nat>)
    requires Narrow(ns) && ns != []
    ensures ns[0] < TWO32 && Narrow(ns[1..]) && FixedArray(ns) == EncodeFixed32(ns[0]) + FixedArray(ns[1..])
  {
  }

  lemma FixedNothing(ns: seq<nat>)
    requires Narrow(ns) && ns == []
    ensures FixedArray(ns) == []
  {
  }

  lemma {:induction false} FixedArrayMore(ns: seq<nat>, last: nat)
    requires Narrow(ns) && last < TWO32
    ensures Narrow(ns + [last]) && FixedArray(ns + [last]) == FixedArray(ns) + EncodeFixed32(last)
  {
    hide EncodeFixed32;
    if ns == [] {
      FixedStep([last]);
      FixedNothing([last][1..]);
      assert [] + [last] == [last] && EncodeFixed32(last) + [] == EncodeFixed32(last) == [] + EncodeFixed32(last);
    } else {
      FixedArrayMore(ns[1..], last);
      assert (ns + [last])[1..] == ns[1..] + [last];
      FixedStep(ns + [last]);
      Assoc(EncodeFixed32(ns[0]), FixedArray(ns[1..]), EncodeFixed32(last));
    }
  }
}
