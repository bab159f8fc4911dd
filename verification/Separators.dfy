/** Comparators with shortened keys: bytewise, and the internal one built on it. */
module Separators {
  import opened Coding
  import opened Keys

  /**
   An order of keys given by a rank, with a way to shorten a key below a limit and a key with no limit.  A
   lookup matches on part of a key: no key up to a shortened one has its part in common with one past the limit.
   */
  ghost predicate IsComparator(rank: Bytes -> real, part: Bytes -> Bytes, separator: (Bytes, Bytes) -> Bytes,
      successor: Bytes -> Bytes) {
    && (forall a, b {:trigger separator(a, b)} :: rank(a) < rank(b) ==>
          && rank(a) <= rank(separator(a, b)) < rank(b) && |separator(a, b)| <= |a|
          && Split(rank, part, a, separator(a, b), b))
    && (forall a {:trigger successor(a)} :: rank(a) <= rank(successor(a)) && |successor(a)| <= |a|)
  }

  ghost predicate Split(rank: Bytes -> real, part: Bytes -> Bytes, a: Bytes, s: Bytes, b: Bytes) {
    forall t, e :: rank(a) < rank(t) <= rank(s) && rank(b) <= rank(e) ==> part(t) != part(e)
  }

  // ---------------------------------------------------------------- bytewise

  /** The separator of the bytewise comparator: the first differing byte plus one, if that stays below the limit. */
  function ShortestSeparator(start: Bytes, limit: Bytes): (s: Bytes)
    ensures |s| <= |start|
  {
    var d := CommonPrefix(start, limit);
    if d < |start| && d < |limit| && start[d] < 255 && ToNat(start[d]) + 1 < ToNat(limit[d])
    then start[..d] + [ToByte(start[d] as int + 1)] else start
  }

  /** Position of the first byte that can be incremented, or the length. */
  function FirstNotMax(key: Bytes): (i: nat)
    ensures i <= |key| && (i < |key| ==> key[i] < 255)
  {
    if key == [] || key[0] < 255 then 0 else 1 + FirstNotMax(key[1..])
  }

  function ShortSuccessor(key: Bytes): (s: Bytes)
    ensures |s| <= |key|
  {
    var i := FirstNotMax(key);
    if i < |key| then key[..i] + [ToByte(key[i] as int + 1)] else key
  }

  lemma {:induction false} CommonPrefixIs(a: Bytes, b: Bytes, n: nat)
    requires n <= |a| && n <= |b| && a[..n] == b[..n] && (n < |a| && n < |b| ==> a[n] != b[n])
    ensures CommonPrefix(a, b) == n
  {
    if n > 0 {
      assert a[..n][0] == b[..n][0];
      assert a[1..][..n - 1] == a[..n][1..] && b[1..][..n - 1] == b[..n][1..];
      CommonPrefixIs(a[1..], b[1..], n - 1);
    }
  }

  /** Incrementing one byte and cutting off the rest makes a larger key. */
  lemma Incremented(key: Bytes, d: nat)
    requires d < |key| && key[d] < 255
    ensures BytewiseCompare(key, key[..d] + [ToByte(key[d] as int + 1)]) < 0
  {
    CommonPrefixIs(key, key[..d] + [ToByte(key[d] as int + 1)], d);
  }

  /** The first different bytes leave room for one between them. */
  predicate Shortens(start: Bytes, limit: Bytes) {
    var d := CommonPrefix(start, limit);
    d < |start| && d < |limit| && ToNat(start[d]) + 1 < ToNat(limit[d])
  }

  /** Nothing between the keys is shorter than the separator, if there is room for one; otherwise the key stays. */
  lemma SeparatorIsShortest(start: Bytes, limit: Bytes, s: Bytes)
    requires BytewiseCompare(start, limit) < 0 && BytewiseCompare(start, s) <= 0 && BytewiseCompare(s, limit) < 0
    ensures if Shortens(start, limit)
      then |ShortestSeparator(start, limit)| == CommonPrefix(start, limit) + 1 <= |s|
      else ShortestSeparator(start, limit) == start
  {
    var d, n := CommonPrefix(start, limit), CommonPrefix(start, s);
    if Shortens(start, limit) && n < |s| <= d {
      assert start[n] == start[..d][n] == limit[..d][n] == limit[n];
      assert s[..n] == start[..n] == start[..d][..n] == limit[..d][..n] == limit[..n];
      CommonPrefixIs(s, limit, n);
    }
  }

  /** Nothing at or after the key is shorter than its successor, unless the key is all 0xff. */
  lemma SuccessorIsShortest(key: Bytes, s: Bytes)
    requires BytewiseCompare(key, s) <= 0
    ensures if FirstNotMax(key) < |key| then |ShortSuccessor(key)| == FirstNotMax(key) + 1 <= |s| else ShortSuccessor(key) == key
  {
    var i, n := FirstNotMax(key), CommonPrefix(key, s);
    if n < |s| <= i && i < |key| {
      MaxBefore(key, n);
    }
  }

  lemma {:induction false} MaxBefore(key: Bytes, n: nat)
    requires n < FirstNotMax(key)
    ensures key[n] == 255
  {
    if n > 0 {
      MaxBefore(key[1..], n - 1);
    }
  }

  lemma SeparatorSeparates(start: Bytes, limit: Bytes)
    requires BytewiseCompare(start, limit) < 0
    ensures BytewiseCompare(start, ShortestSeparator(start, limit)) <= 0
    ensures BytewiseCompare(ShortestSeparator(start, limit), limit) < 0
  {
    var d := CommonPrefix(start, limit);
    var s := ShortestSeparator(start, limit);
    if s == start {
      CommonPrefixIs(start, start, |start|);
    } else {
      Incremented(start, d);
      assert s[..d] == start[..d];
      CommonPrefixIs(s, limit, d);
    }
  }

  lemma SuccessorSucceeds(key: Bytes)
    ensures BytewiseCompare(key, ShortSuccessor(key)) <= 0
  {
    var i := FirstNotMax(key);
    if i < |key| {
      Incremented(key, i);
    } else {
      CommonPrefixIs(key, key, |key|);
    }
  }

  /** The loops of the bytewise comparator compute these functions. */
  method FindShortestSeparator(start: Bytes, limit: Bytes) returns (s: Bytes)
    ensures s == ShortestSeparator(start, limit)
  {
    var minLength := if |start| < |limit| then |start| else |limit|;
    var diffIndex := 0;
    while diffIndex < minLength && start[diffIndex] == limit[diffIndex]
      invariant 0 <= diffIndex <= minLength && start[..diffIndex] == limit[..diffIndex]
    {
      assert start[..diffIndex + 1] == start[..diffIndex] + [start[diffIndex]];
      assert limit[..diffIndex + 1] == limit[..diffIndex] + [limit[diffIndex]];
      diffIndex := diffIndex + 1;
    }
    CommonPrefixIs(start, limit, diffIndex);
    s := start;
    if diffIndex < minLength {
      var diffByte := start[diffIndex];
      if diffByte < 255 && ToNat(diffByte) + 1 < ToNat(limit[diffIndex]) {
        s := s[diffIndex := ToByte(diffByte as int + 1)];
        s := s[..diffIndex + 1];
        assert s == start[..diffIndex] + [ToByte(diffByte as int + 1)];
      }
    }
  }

  method FindShortSuccessor(key: Bytes) returns (s: Bytes)
    ensures s == ShortSuccessor(key)
  {
    var i := 0;
    assert key[0..] == key;
    while i < |key|
      invariant 0 <= i <= |key| && FirstNotMax(key) == i + FirstNotMax(key[i..])
    {
      if key[i] != 255 {
        s := key[i := ToByte(key[i] as int + 1)];
        s := s[..i + 1];
        assert s == key[..i] + [ToByte(key[i] as int + 1)];
        return;
      }
      assert key[i..][1..] == key[i + 1..];
      i := i + 1;
    }
    s := key;
  }

  lemma BytewiseIsComparator()
    ensures IsComparator((k: Bytes) => Rank(k), (k: Bytes) => k, (a, b) => ShortestSeparator(a, b), a => ShortSuccessor(a))
  {
    hide ShortestSeparator, ShortSuccessor, Rank, BytewiseCompare;
    forall a: Bytes, b: Bytes | Rank(a) < Rank(b)
      ensures Rank(a) <= Rank(ShortestSeparator(a, b)) < Rank(b)
    {
      RankIsBytewise(a, b);
      SeparatorSeparates(a, b);
      RankIsBytewise(a, ShortestSeparator(a, b));
      RankIsBytewise(ShortestSeparator(a, b), b);
    }
    forall a: Bytes
      ensures Rank(a) <= Rank(ShortSuccessor(a))
    {
      SuccessorSucceeds(a);
      RankIsBytewise(a, ShortSuccessor(a));
    }
  }

  // ---------------------------------------------------------------- internal keys

  /** An encoded internal key: the user key, then the tag in eight bytes. */
  function UserPart(k: Bytes): Bytes { if |k| >= 8 then k[..|k| - 8] else [] }

  function TagPart(k: Bytes): (t: nat)
    ensures t < TWO64
  {
    if |k| >= 8 then DecodeFixed64(k[|k| - 8..]) else 0
  }

  const SEEK_TAG: nat := MAX_SEQUENCE * 256 + 1

  function Internal(user: Bytes, tag: nat): Bytes
    requires tag < TWO64
  {
    user + EncodeFixed64(tag)
  }

  lemma InternalParts(user: Bytes, tag: nat)
    requires tag < TWO64
    ensures UserPart(Internal(user, tag)) == user && TagPart(Internal(user, tag)) == tag
  {
    hide EncodeFixed64, DecodeFixed64;
    Fixed64RoundTrip(tag);
    var k := Internal(user, tag);
    assert k[..|k| - 8] == user && k[|k| - 8..] == EncodeFixed64(tag);
  }

  /** User keys ascending, then tags descending. */
  predicate InternalLess(a: Bytes, b: Bytes) {
    var r := BytewiseCompare(UserPart(a), UserPart(b));
    r < 0 || (r == 0 && TagPart(a) > TagPart(b))
  }

  function InternalSeparator(start: Bytes, limit: Bytes): (s: Bytes)
    ensures |s| <= |start|
  {
    var user := UserPart(start);
    var tmp := ShortestSeparator(user, UserPart(limit));
    if |tmp| < |user| && BytewiseCompare(user, tmp) < 0 then Internal(tmp, SEEK_TAG) else start
  }

  function InternalSuccessor(key: Bytes): (s: Bytes)
    ensures |s| <= |key|
  {
    var user := UserPart(key);
    var tmp := ShortSuccessor(user);
    if |tmp| < |user| && BytewiseCompare(user, tmp) < 0 then Internal(tmp, SEEK_TAG) else key
  }

  /** Bytes whose bytewise order is the internal order: each byte behind a 1, a 0, the complemented tag. */
  function Spread(user: Bytes, tag: nat): Bytes
    requires tag < TWO64
  {
    if user == [] then [0] + BigEndian(TWO64 - 1 - tag, 8) else [1, user[0]] + Spread(user[1..], tag)
  }

  function BigEndian(n: nat, width: nat): (b: Bytes)
    ensures |b| == width
  {
    if width == 0 then [] else BigEndian(n / 256, width - 1) + [ToByte(n % 256)]
  }

  function InternalRank(k: Bytes): real { Rank(Spread(UserPart(k), TagPart(k))) }

  function Pow256(n: nat): (r: nat)
    ensures r > 0
  {
    if n == 0 then 1 else 256 * Pow256(n - 1)
  }

  lemma {:induction false} BigEndianOrder(m: nat, n: nat, width: nat)
    requires m < n < Pow256(width)
    ensures BytewiseCompare(BigEndian(m, width), BigEndian(n, width)) < 0
    decreases width
  {
    assert width > 0;
    var a, b := BigEndian(m / 256, width - 1), BigEndian(n / 256, width - 1);
    var x, y := BigEndian(m, width), BigEndian(n, width);
    assert x == a + [ToByte(m % 256)] && y == b + [ToByte(n % 256)];
    if m / 256 < n / 256 {
      BigEndianOrder(m / 256, n / 256, width - 1);
      var d := CommonPrefix(a, b);
      assert x[..d] == a[..d] && y[..d] == b[..d];
      CommonPrefixIs(x, y, d);
    } else {
      assert m / 256 == n / 256 && m % 256 < n % 256;
      assert x[..width - 1] == a && y[..width - 1] == b;
      CommonPrefixIs(x, y, width - 1);
    }
  }

  lemma CompareBehind(p: Bytes, a: Bytes, b: Bytes)
    ensures BytewiseCompare(p + a, p + b) == BytewiseCompare(a, b)
  {
    var d := CommonPrefix(a, b);
    assert (p + a)[..|p| + d] == p + a[..d] && (p + b)[..|p| + d] == p + b[..d];
    CommonPrefixIs(p + a, p + b, |p| + d);
  }

  lemma Powers256()
    ensures Pow256(8) == TWO64
  {
    assert Pow256(1) == 0x100;
    assert Pow256(2) == 0x1_0000;
    assert Pow256(3) == 0x100_0000;
    assert Pow256(4) == 0x1_0000_0000;
    assert Pow256(5) == 0x100_0000_0000;
    assert Pow256(6) == 0x1_0000_0000_0000;
    assert Pow256(7) == 0x100_0000_0000_0000;
  }

  lemma FirstByteDecides(a: Bytes, b: Bytes)
    requires a != [] && b != [] && a[0] < b[0]
    ensures BytewiseCompare(a, b) < 0
  {
    CommonPrefixIs(a, b, 0);
  }

  lemma {:induction false} SpreadOrder(u: Bytes, s: nat, v: Bytes, t: nat)
    requires s < TWO64 && t < TWO64 && (BytewiseCompare(u, v) < 0 || (u == v && s > t))
    ensures BytewiseCompare(Spread(u, s), Spread(v, t)) < 0
    decreases u
  {
    hide BigEndian, CommonPrefix;
    ByHeads(u, v);
    if u == [] && v == [] {
      Powers256();
      BigEndianOrder(TWO64 - 1 - s, TWO64 - 1 - t, 8);
      CompareBehind([0], BigEndian(TWO64 - 1 - s, 8), BigEndian(TWO64 - 1 - t, 8));
    } else if u == [] {
      FirstByteDecides(Spread(u, s), Spread(v, t));
    } else if u[0] != v[0] {
      CompareBehind([1], [u[0]] + Spread(u[1..], s), [v[0]] + Spread(v[1..], t));
      FirstByteDecides([u[0]] + Spread(u[1..], s), [v[0]] + Spread(v[1..], t));
      assert [1] + ([u[0]] + Spread(u[1..], s)) == Spread(u, s) && [1] + ([v[0]] + Spread(v[1..], t)) == Spread(v, t);
    } else {
      SpreadOrder(u[1..], s, v[1..], t);
      CompareBehind([1, u[0]], Spread(u[1..], s), Spread(v[1..], t));
    }
  }

  /** Comparing by heads and tails. */
  lemma ByHeads(u: Bytes, v: Bytes)
    requires BytewiseCompare(u, v) < 0 || u == v
    ensures u != [] ==> v != [] && (u[0] < v[0] || (u[0] == v[0] && (BytewiseCompare(u[1..], v[1..]) < 0 || u[1..] == v[1..])))
    ensures u != [] && u != v && u[0] == v[0] ==> BytewiseCompare(u[1..], v[1..]) < 0
    ensures u == v ==> u != [] ==> u[1..] == v[1..]
  {
    if u != [] && v != [] && u[0] == v[0] {
      assert u == [u[0]] + u[1..] && v == [u[0]] + v[1..];
      CompareBehind([u[0]], u[1..], v[1..]);
    }
  }

  /** The internal comparator's order is that of a real rank. */
  lemma InternalOrder(a: Bytes, b: Bytes)
    ensures InternalLess(a, b) <==> InternalRank(a) < InternalRank(b)
    ensures UserPart(a) == UserPart(b) && TagPart(a) == TagPart(b) ==> InternalRank(a) == InternalRank(b)
  {
    hide Spread, BytewiseCompare, UserPart, TagPart, Rank;
    var u, s, v, t := UserPart(a), TagPart(a), UserPart(b), TagPart(b);
    RankIsBytewise(u, v);
    RankIsBytewise(v, u);
    RankIsBytewise(Spread(u, s), Spread(v, t));
    RankIsBytewise(Spread(v, t), Spread(u, s));
    if BytewiseCompare(u, v) < 0 || (u == v && s > t) {
      SpreadOrder(u, s, v, t);
    } else if BytewiseCompare(v, u) < 0 || (u == v && t > s) {
      SpreadOrder(v, t, u, s);
    }
  }

  lemma InternalSeparates(start: Bytes, limit: Bytes)
    requires InternalLess(start, limit)
    ensures
      var s := InternalSeparator(start, limit);
      (s == start || InternalLess(start, s)) && InternalLess(s, limit)
  {
    hide ShortestSeparator, BytewiseCompare, Internal;
    var u, l := UserPart(start), UserPart(limit);
    var tmp := ShortestSeparator(u, l);
    if |tmp| < |u| && BytewiseCompare(u, tmp) < 0 {
      InternalParts(tmp, SEEK_TAG);
      SameSeparator(u);
      RankIsBytewise(u, l);
      if BytewiseCompare(u, l) < 0 {
        SeparatorSeparates(u, l);
      }
    }
  }

  /** Equal user keys are never shortened. */
  lemma SameSeparator(u: Bytes)
    ensures ShortestSeparator(u, u) == u
  {
    CommonPrefixIs(u, u, |u|);
  }

  lemma InternalSucceeds(key: Bytes)
    ensures InternalSuccessor(key) == key || InternalLess(key, InternalSuccessor(key))
  {
    hide ShortSuccessor, BytewiseCompare, Internal;
    var tmp := ShortSuccessor(UserPart(key));
    InternalParts(tmp, SEEK_TAG);
  }

  /** A shortened separator's user key is before the limit's, so no key up to it shares a user key past the limit. */
  lemma InternalSplits(start: Bytes, limit: Bytes, t: Bytes, e: Bytes)
    requires InternalLess(start, limit) && InternalLess(start, t)
    requires !InternalLess(InternalSeparator(start, limit), t) && !InternalLess(e, limit)
    ensures UserPart(t) != UserPart(e)
  {
    hide ShortestSeparator, BytewiseCompare, Internal, UserPart, TagPart;
    var u, l := UserPart(start), UserPart(limit);
    var tmp := ShortestSeparator(u, l);
    InternalParts(tmp, SEEK_TAG);
    SameSeparator(u);
    RankIsBytewise(u, l);
    if BytewiseCompare(u, l) < 0 {
      SeparatorSeparates(u, l);
    }
    RankIsBytewise(UserPart(e), l);
    RankIsBytewise(tmp, l);
    RankIsBytewise(tmp, UserPart(t));
    RankIsBytewise(UserPart(t), tmp);
  }

  lemma InternalIsComparator()
    ensures IsComparator((k: Bytes) => InternalRank(k), (k: Bytes) => UserPart(k), (a, b) => InternalSeparator(a, b), a => InternalSuccessor(a))
  {
    hide InternalSeparator, InternalSuccessor, InternalRank, InternalLess, UserPart;
    forall a: Bytes, b: Bytes | InternalRank(a) < InternalRank(b)
      ensures InternalRank(a) <= InternalRank(InternalSeparator(a, b)) < InternalRank(b)
      ensures Split((k: Bytes) => InternalRank(k), (k: Bytes) => UserPart(k), a, InternalSeparator(a, b), b)
    {
      InternalOrder(a, b);
      InternalSeparates(a, b);
      InternalOrder(a, InternalSeparator(a, b));
      InternalOrder(InternalSeparator(a, b), b);
      forall t, e | InternalRank(a) < InternalRank(t) <= InternalRank(InternalSeparator(a, b)) && InternalRank(b) <= InternalRank(e)
        ensures UserPart(t) != UserPart(e)
      {
        InternalOrder(a, t);
        InternalOrder(InternalSeparator(a, b), t);
        InternalOrder(e, b);
        InternalSplits(a, b, t, e);
      }
    }
    forall a: Bytes
      ensures InternalRank(a) <= InternalRank(InternalSuccessor(a))
    {
      InternalSucceeds(a);
      InternalOrder(a, InternalSuccessor(a));
    }
  }
}
