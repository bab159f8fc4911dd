/**
 User keys, internal keys and their orders.

 The engine compares user keys only through a `Comparator`, an arbitrary total order on byte
 strings.  Byte strings are countable, and every total order on a countable set embeds in the
 reals, so the modules above this one take a user key to be a `real` ordered by `<`.
 `RankIsBytewise` proves that embedding for the comparator the library ships with.
 */
module Keys {
  type Byte = n: int | 0 <= n < 256
  type Bytes = seq<Byte>
  type UserKey = real

  /** The first position where the two strings differ, or the length of the shorter one. */
  function CommonPrefix(a: Bytes, b: Bytes): (n: nat)
    ensures n <= |a| && n <= |b| && a[..n] == b[..n]
    ensures n < |a| && n < |b| ==> a[n] != b[n]
  {
    if a == [] || b == [] || a[0] != b[0] then 0 else
      assert a == [a[0]] + a[1..] && b == [b[0]] + b[1..];
      1 + CommonPrefix(a[1..], b[1..])
  }

  /** `Slice::compare`: byte order at the first difference, else the shorter string first. */
  function BytewiseCompare(a: Bytes, b: Bytes): int {
    var n := CommonPrefix(a, b);
    if n < |a| && n < |b| then
      if a[n] < b[n] then -1 else 1
    else if |a| < |b| then -1
    else if |a| > |b| then 1
    else 0
  }

  /** A real number for each byte string: digits 1..256 in base 257 after the point. */
  function Rank(s: Bytes): (r: real)
    ensures 0.0 <= r < 1.0
    ensures s != [] ==> s[0] as real + 1.0 <= 257.0 * r < s[0] as real + 2.0
  {
    if s == [] then 0.0 else (s[0] as real + 1.0 + Rank(s[1..])) / 257.0
  }

  /** The bytewise comparator is exactly the order of the ranks. */
  lemma {:induction false} RankIsBytewise(a: Bytes, b: Bytes)
    ensures BytewiseCompare(a, b) < 0 <==> Rank(a) < Rank(b)
    ensures BytewiseCompare(a, b) == 0 <==> Rank(a) == Rank(b)
    ensures Rank(a) == Rank(b) <==> a == b
  {
    if a == [] || b == [] || a[0] != b[0] {
    } else {
      RankIsBytewise(a[1..], b[1..]);
      assert a == [a[0]] + a[1..] && b == [b[0]] + b[1..];
    }
  }

  const MAX_SEQUENCE: nat := 0xFF_FFFF_FFFF_FFFF  // 2^56 - 1: eight bits are left for the kind

  const NUM_LEVELS: nat := 7

  datatype Kind = Deletion | Value

  function KindByte(t: Kind): Byte { if t == Value then 1 else 0 }

  /** The last component of an internal key: the sequence number above the kind byte. */
  datatype IKey = IKey(user: UserKey, seqno: nat, kind: Kind) {
    function Tag(): nat { seqno * 256 + KindByte(kind) }
  }

  /** `InternalKeyComparator`: user key ascending, then packed sequence and kind descending. */
  predicate Less(a: IKey, b: IKey) {
    a.user < b.user || (a.user == b.user && a.Tag() > b.Tag())
  }

  predicate AtMost(a: IKey, b: IKey) { a == b || Less(a, b) }

  /** The key a read of `user` at snapshot `s` seeks to; `Value` is the largest kind. */
  function LookupKey(user: UserKey, s: nat): IKey { IKey(user, s, Value) }

  datatype Entry = Entry(ikey: IKey, value: Bytes)

  ghost predicate Sorted(es: seq<Entry>) {
    forall i, j :: 0 <= i < j < |es| ==> Less(es[i].ikey, es[j].ikey)
  }

  /** Position of the first entry at or after `target`: what `Seek` does on any sorted run. */
  function SeekIndex(es: seq<Entry>, target: IKey): (p: nat)
    ensures p <= |es|
    ensures forall i :: 0 <= i < p ==> Less(es[i].ikey, target)
    ensures p < |es| ==> !Less(es[p].ikey, target)
  {
    if es == [] || !Less(es[0].ikey, target) then 0 else 1 + SeekIndex(es[1..], target)
  }

  lemma SeekIndexSplits(es: seq<Entry>, target: IKey)
    requires Sorted(es)
    ensures forall i :: SeekIndex(es, target) <= i < |es| ==> AtMost(target, es[i].ikey)
  {
  }

  datatype Option<+T> = None | Some(value: T)
}
