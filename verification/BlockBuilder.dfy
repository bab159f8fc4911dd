/** `BlockBuilder`: prefix-compressed entries with a restart point every so many keys. */
module BlockBuilder {
  import opened BlockFormat
  import opened Coding
  import opened Keys

  /** A layout with one more entry at the end of `size` bytes. */
  function Extend(l: Layout, e: Pair, shared: nat, restart: bool, size: nat): Layout {
    Layout(l.entries + [e], l.offs + [size], l.shared + [shared],
           if restart then l.marks + [|l.entries|] else l.marks)
  }

  ghost predicate MayShare(l: Layout, e: Pair, shared: nat, restart: bool) {
    && shared <= |e.key| < TWO32 && |e.value| < TWO32
    && (restart ==> l.entries != [] && shared == 0)
    && if l.entries == [] then shared == 0
       else
         var last := l.entries[|l.entries| - 1].key;
         shared <= |last| && last[..shared] == e.key[..shared]
  }

  lemma SharesExtends(l: Layout, e: Pair, shared: nat, restart: bool)
    requires Shares(l.entries, l.shared) && MayShare(l, e, shared, restart)
    ensures Shares(l.entries + [e], l.shared + [shared]) && |l.shared| == |l.entries|
  {
  }

  lemma RestartsExtend(l: Layout, e: Pair, shared: nat, restart: bool)
    requires Restarts(l.marks, l.shared, |l.entries|) && MayShare(l, e, shared, restart)
    ensures Restarts(Extend(l, e, shared, restart, 0).marks, l.shared + [shared], |l.entries| + 1)
  {
    hide MayShare;
    RestartIsPlain(l, e, shared, restart);
  }

  lemma RestartIsPlain(l: Layout, e: Pair, shared: nat, restart: bool)
    requires MayShare(l, e, shared, restart)
    ensures restart ==> shared == 0 && l.entries != []
    ensures l.entries == [] ==> shared == 0
  {
  }

  lemma OldEntry(data: Bytes, more: Bytes, l: Layout, m: Layout, i: nat)
    requires i < |l.entries| <= |m.entries| && Starts(l.offs, |l.entries|) && Starts(m.offs, |m.entries|)
    requires Shares(l.entries, l.shared) && Shares(m.entries, m.shared)
    requires m.entries[i] == l.entries[i] && m.shared[i] == l.shared[i]
    requires m.offs[i] == l.offs[i] && m.offs[i + 1] == l.offs[i + 1]
    requires EntryAt(data, l, i)
    ensures EntryAt(data + more, m, i)
  {
    hide EntryBytes, Shares;
    var a, b := l.offs[i], l.offs[i + 1];
    if a <= b {
      assert (data + more)[a..b] == data[a..b];
    }
  }

  lemma StartsExtends(offs: seq<nat>, n: nat, size: nat)
    requires Starts(offs, n) && size > offs[n]
    ensures Starts(offs + [size], n + 1)
  {
  }

  /** Appending an entry's bytes extends the layout by that entry. */
  lemma HoldsExtends(data: Bytes, l: Layout, e: Pair, shared: nat, restart: bool)
    requires Holds(data, l) && |data| == l.offs[|l.entries|] && MayShare(l, e, shared, restart)
    ensures
      var more := EntryBytes(shared, e);
      Holds(data + more, Extend(l, e, shared, restart, |data| + |more|))
  {
    hide EntryAt, Shares, Restarts, EntryBytes, Starts;
    var more := EntryBytes(shared, e);
    var m := Extend(l, e, shared, restart, |data| + |more|);
    ExtendParts(data, l, e, shared, restart);
    forall i | 0 <= i < |m.entries|
      ensures EntryAt(data + more, m, i)
    {
      EntryExtends(data, l, e, shared, restart, i);
    }
  }

  lemma ExtendParts(data: Bytes, l: Layout, e: Pair, shared: nat, restart: bool)
    requires Holds(data, l) && |data| == l.offs[|l.entries|] && MayShare(l, e, shared, restart)
    ensures
      var m := Extend(l, e, shared, restart, |data| + |EntryBytes(shared, e)|);
      && Starts(m.offs, |m.entries|) && Shares(m.entries, m.shared) && Restarts(m.marks, m.shared, |m.entries|)
    ensures |l.shared| == |l.entries|
  {
    hide EntryAt, Shares, Restarts, EntryBytes;
    SharesExtends(l, e, shared, restart);
    RestartsExtend(l, e, shared, restart);
    StartsExtends(l.offs, |l.entries|, |data| + |EntryBytes(shared, e)|);
  }

  lemma EntryExtends(data: Bytes, l: Layout, e: Pair, shared: nat, restart: bool, i: nat)
    requires Holds(data, l) && |data| == l.offs[|l.entries|] && MayShare(l, e, shared, restart) && i <= |l.entries|
    ensures
      var more := EntryBytes(shared, e);
      var m := Extend(l, e, shared, restart, |data| + |more|);
      && Starts(m.offs, |m.entries|) && Shares(m.entries, m.shared) && EntryAt(data + more, m, i)
  {
    hide EntryAt, Shares, Restarts, EntryBytes;
    ExtendParts(data, l, e, shared, restart);
    var more := EntryBytes(shared, e);
    if i < |l.entries| {
      OldEntry(data, more, l, Extend(l, e, shared, restart, |data| + |more|), i);
    } else {
      NewEntry(data, l, e, shared, restart);
    }
  }

  lemma NewEntry(data: Bytes, l: Layout, e: Pair, shared: nat, restart: bool)
    requires MayShare(l, e, shared, restart) && |l.offs| == |l.entries| + 1
    requires |data| == l.offs[|l.entries|] && |l.shared| == |l.entries|
    requires
      var m := Extend(l, e, shared, restart, |data| + |EntryBytes(shared, e)|);
      Starts(m.offs, |m.entries|) && Shares(m.entries, m.shared)
    ensures
      var more := EntryBytes(shared, e);
      EntryAt(data + more, Extend(l, e, shared, restart, |data| + |more|), |l.entries|)
  {
    hide EntryBytes, Shares, Starts;
    var more := EntryBytes(shared, e);
    assert (data + more)[|data|..|data| + |more|] == more;
  }

  // ---------------------------------------------------------------- the restart array

  ghost predicate Points(restarts: seq<nat>, l: Layout)
    requires Starts(l.offs, |l.entries|) && Restarts(l.marks, l.shared, |l.entries|)
  {
    |restarts| == |l.marks| && forall i :: 0 <= i < |restarts| ==> restarts[i] == l.offs[Mark(l, i)]
  }

  lemma PointsExtend(restarts: seq<nat>, l: Layout, e: Pair, shared: nat, restart: bool, size: nat)
    requires Starts(l.offs, |l.entries|) && Restarts(l.marks, l.shared, |l.entries|) && Points(restarts, l)
    requires
      var m := Extend(l, e, shared, restart, size);
      Starts(m.offs, |m.entries|) && Restarts(m.marks, m.shared, |m.entries|)
    ensures
      var m := Extend(l, e, shared, restart, size);
      Points(if restart then restarts + [l.offs[|l.entries|]] else restarts, m)
  {
  }

  lemma OffsetsBelow(l: Layout, i: nat)
    requires Starts(l.offs, |l.entries|) && i <= |l.entries|
    ensures l.offs[i] <= l.offs[|l.entries|]
  {
  }

  /** Bytes behind the entries do not disturb them. */
  lemma HoldsMore(data: Bytes, more: Bytes, l: Layout)
    requires Holds(data, l)
    ensures Holds(data + more, l)
  {
    hide EntryAt, Shares, Restarts;
    forall i | 0 <= i < |l.entries|
      ensures EntryAt(data + more, l, i)
    {
      OldEntry(data, more, l, l, i);
    }
  }

  lemma PointsNarrow(restarts: seq<nat>, l: Layout)
    requires Starts(l.offs, |l.entries|) && Restarts(l.marks, l.shared, |l.entries|) && Points(restarts, l)
    requires l.offs[|l.entries|] < TWO32
    ensures Narrow(restarts)
  {
    forall i | 0 <= i < |restarts|
      ensures restarts[i] < TWO32
    {
      OffsetsBelow(l, Mark(l, i));
    }
  }

  lemma Middle(a: Bytes, b: Bytes, c: Bytes, i: nat, j: nat)
    requires i <= j <= |b|
    ensures (a + b + c)[|a| + i..|a| + j] == b[i..j]
  {
  }

  lemma PointAt(data: Bytes, restarts: seq<nat>, count: Bytes, i: nat)
    requires Narrow(restarts) && i < |restarts|
    ensures
      var block := data + FixedArray(restarts) + count;
      DecodeFixed32(block[|data| + 4 * i..|data| + 4 * i + 4]) == restarts[i]
  {
    hide *;
    NarrowAt(restarts, i);
    FixedArrayAt(restarts, i);
    FixedRoundTrip(restarts[i]);
    Middle(data, FixedArray(restarts), count, 4 * i, 4 * i + 4);
  }

  lemma NarrowAt(ns: seq<nat>, i: nat)
    requires Narrow(ns) && i < |ns|
    ensures ns[i] < 0x1_0000_0000
  {
  }

  lemma PointsAt(restarts: seq<nat>, l: Layout, i: nat)
    requires Starts(l.offs, |l.entries|) && Restarts(l.marks, l.shared, |l.entries|) && Points(restarts, l)
    requires i < |l.marks|
    ensures i < |restarts| && Mark(l, i) <= |l.entries| && |l.offs| == |l.entries| + 1 && restarts[i] == l.offs[Mark(l, i)]
  {
  }

  lemma ArrayHolds(data: Bytes, l: Layout, restarts: seq<nat>)
    requires Starts(l.offs, |l.entries|) && Restarts(l.marks, l.shared, |l.entries|) && Points(restarts, l)
    requires Narrow(restarts) && |data| + 4 * |restarts| + 4 < TWO32
    ensures RestartArray(data + FixedArray(restarts) + EncodeFixed32(|restarts|), |data|, l)
  {
    hide Points, FixedArray, EncodeFixed32, DecodeFixed32, Starts, Restarts, Narrow, Mark;
    assert |restarts| == |l.marks| by { SameCount(restarts, l); }
    var points, count := FixedArray(restarts), EncodeFixed32(|restarts|);
    var block := data + points + count;
    assert block[|block| - 4..] == count;
    FixedRoundTrip(|restarts|);
    forall i | 0 <= i < |restarts|
      ensures Mark(l, i) < |l.offs| && DecodeFixed32(block[|data| + 4 * i..|data| + 4 * i + 4]) == l.offs[Mark(l, i)]
    {
      PointAt(data, restarts, count, i);
      PointsAt(restarts, l, i);
    }
  }

  lemma SameCount(restarts: seq<nat>, l: Layout)
    requires Starts(l.offs, |l.entries|) && Restarts(l.marks, l.shared, |l.entries|) && Points(restarts, l)
    ensures |restarts| == |l.marks| > 0
  {
  }

  /** The entries, the restart array and the count make a finished block. */
  lemma FinishedBlock(data: Bytes, l: Layout, restarts: seq<nat>)
    requires Holds(data, l) && |data| == l.offs[|l.entries|] && Points(restarts, l)
    requires |data| + 4 * |restarts| + 4 < TWO32
    ensures Narrow(restarts) && Encodes(data + FixedArray(restarts) + EncodeFixed32(|restarts|), l)
  {
    hide Holds, EncodeFixed32, DecodeFixed32, Shares, FixedArray, Starts, Restarts, Points, RestartArray, Narrow;
    HoldsParts(data, l);
    SameCount(restarts, l);
    PointsNarrow(restarts, l);
    var points, count := FixedArray(restarts), EncodeFixed32(|restarts|);
    assert data + points + count == data + (points + count);
    HoldsMore(data, points + count, l);
    ArrayHolds(data, l, restarts);
  }

  lemma HoldsParts(data: Bytes, l: Layout)
    requires Holds(data, l)
    ensures Starts(l.offs, |l.entries|) && Shares(l.entries, l.shared) && Restarts(l.marks, l.shared, |l.entries|)
  {
  }

  // ---------------------------------------------------------------- the builder

  /** A restart every `interval` keys, and in between as much of the key shared as possible. */
  ghost predicate Policy(l: Layout, interval: nat, counter: nat)
    requires Restarts(l.marks, l.shared, |l.entries|)
  {
    var n := |l.entries|;
    && counter == n - l.marks[|l.marks| - 1] <= interval && (n > 0 ==> counter > 0)
    && (forall i :: 0 < i < |l.marks| ==> l.marks[i] == l.marks[i - 1] + interval)
    && (forall i :: 0 < i < n && i !in l.marks ==>
          l.shared[i] == CommonPrefix(l.entries[i - 1].key, l.entries[i].key))
  }

  ghost function LastKey(l: Layout): Bytes {
    if l.entries == [] then [] else l.entries[|l.entries| - 1].key
  }

  /** The fields of a builder that has been given the layout's entries. */
  ghost predicate Building(buffer: Bytes, restarts: seq<nat>, counter: nat, interval: nat, l: Layout) {
    && Holds(buffer, l) && |buffer| == l.offs[|l.entries|]
    && Points(restarts, l) && Policy(l, interval, counter)
  }

  lemma StartsEmpty(interval: nat)
    requires interval >= 1
    ensures Building([], [0], 0, interval, Layout([], [0], [], [0])) && LastKey(Layout([], [0], [], [0])) == []
  {
  }

  lemma PolicyExtends(l: Layout, e: Pair, interval: nat, counter: nat, shared: nat, size: nat)
    requires Restarts(l.marks, l.shared, |l.entries|) && Policy(l, interval, counter) && interval >= 1
    requires
      var m := Extend(l, e, shared, counter >= interval, size);
      Restarts(m.marks, m.shared, |m.entries|)
    requires counter < interval ==> shared == CommonPrefix(LastKey(l), e.key)
    ensures
      var m := Extend(l, e, shared, counter >= interval, size);
      Policy(m, interval, if counter >= interval then 1 else counter + 1)
  {
    hide Restarts, CommonPrefix;
    var m := Extend(l, e, shared, counter >= interval, size);
    var n := |l.entries|;
    assert l.marks != [] && |l.shared| == n by { NonEmptyMarks(l); }
    if counter < interval && n > 0 {
      assert LastKey(l) == m.entries[n - 1].key;
    }
    assert forall i :: 0 <= i < |l.marks| ==> m.marks[i] == l.marks[i];
    if counter >= interval {
      assert m.marks[|l.marks|] == n;
    }
  }

  lemma NonEmptyMarks(l: Layout)
    requires Restarts(l.marks, l.shared, |l.entries|)
    ensures l.marks != [] && |l.shared| == |l.entries|
  {
  }

  /** What `Add` shares with the previous key: nothing at a restart point. */
  ghost function SharedBy(l: Layout, key: Bytes, interval: nat, counter: nat): nat {
    if counter >= interval then 0 else CommonPrefix(LastKey(l), key)
  }

  lemma SharingIsAllowed(l: Layout, e: Pair, interval: nat, counter: nat)
    requires Restarts(l.marks, l.shared, |l.entries|) && Policy(l, interval, counter) && interval >= 1
    requires |e.key| < TWO32 && |e.value| < TWO32
    ensures SharedBy(l, e.key, interval, counter) <= |LastKey(l)|
    ensures MayShare(l, e, SharedBy(l, e.key, interval, counter), counter >= interval)
  {
  }

  /** One `Add`, on the fields. */
  lemma Adds(buffer: Bytes, restarts: seq<nat>, counter: nat, interval: nat, l: Layout, e: Pair)
    requires Building(buffer, restarts, counter, interval, l) && interval >= 1
    requires |e.key| < TWO32 && |e.value| < TWO32
    ensures SharedBy(l, e.key, interval, counter) <= |e.key|
    ensures
      var restart, shared := counter >= interval, SharedBy(l, e.key, interval, counter);
      var more := EntryBytes(shared, e);
      Building(buffer + more, if restart then restarts + [|buffer|] else restarts,
               if restart then 1 else counter + 1, interval, Extend(l, e, shared, restart, |buffer| + |more|))
  {
    hide Holds, Points, Policy, MayShare, EntryBytes;
    BuildingParts(buffer, restarts, counter, interval, l);
    var restart, shared := counter >= interval, SharedBy(l, e.key, interval, counter);
    SharingIsAllowed(l, e, interval, counter);
    HoldsExtends(buffer, l, e, shared, restart);
    var more := EntryBytes(shared, e);
    var m := Extend(l, e, shared, restart, |buffer| + |more|);
    HoldsParts(buffer + more, m);
    PointsExtend(restarts, l, e, shared, restart, |buffer| + |more|);
    PolicyExtends(l, e, interval, counter, shared, |buffer| + |more|);
  }

  lemma BuildingParts(buffer: Bytes, restarts: seq<nat>, counter: nat, interval: nat, l: Layout)
    requires Building(buffer, restarts, counter, interval, l)
    ensures Holds(buffer, l) && Starts(l.offs, |l.entries|) && Shares(l.entries, l.shared)
    ensures Restarts(l.marks, l.shared, |l.entries|)
    ensures |buffer| == l.offs[|l.entries|] && Points(restarts, l) && Policy(l, interval, counter)
  {
  }

  class Builder {
    const interval: nat
    var buffer: Bytes
    var restarts: seq<nat>
    var counter: nat
    var finished: bool
    var lastKey: Bytes
    ghost var layout: Layout

    ghost predicate Valid() reads this {
      && interval >= 1
      && if finished then Encodes(buffer, layout)
         else Building(buffer, restarts, counter, interval, layout) && lastKey == LastKey(layout)
    }

    constructor (interval: nat)
      requires interval >= 1
      ensures Valid() && !finished && layout.entries == [] && this.interval == interval
      ensures CurrentSizeEstimate() == 8
    {
      StartsEmpty(interval);
      this.interval := interval;
      buffer, restarts, counter, finished, lastKey := [], [0], 0, false, [];
      layout := Layout([], [0], [], [0]);
    }

    /** The size of the block if it were finished now. */
    function CurrentSizeEstimate(): nat reads this { |buffer| + 4 * |restarts| + 4 }

    predicate Empty() reads this { |buffer| == 0 }

    lemma EmptyMeans()
      requires Valid() && !finished
      ensures Empty() <==> layout.entries == []
    {
      hide Points, Policy;
      BuildingParts(buffer, restarts, counter, interval, layout);
    }

    method Reset()
      requires interval >= 1
      modifies this
      ensures Valid() && !finished && layout.entries == [] && CurrentSizeEstimate() == 8
    {
      hide Building;
      StartsEmpty(interval);
      buffer, restarts, counter, finished, lastKey := [], [0], 0, false, [];
      layout := Layout([], [0], [], [0]);
    }

    /** Add one pair: the layout grows by exactly it. */
    method Add(key: Bytes, value: Bytes)
      requires Valid() && !finished && |key| < TWO32 && |value| < TWO32
      modifies this
      ensures Valid() && !finished && layout.entries == old(layout).entries + [Pair(key, value)]
      ensures CurrentSizeEstimate() <= old(CurrentSizeEstimate()) + |key| + |value| + 19
    {
      hide Building, LastKey, CommonPrefix, Varint;
      EntrySize(SharedBy(layout, key, interval, counter), Pair(key, value));
      ghost var e, n := Pair(key, value), |buffer|;
      ghost var m := Extend(layout, e, SharedBy(layout, key, interval, counter), counter >= interval,
                            n + |EntryBytes(SharedBy(layout, key, interval, counter), e)|);
      Adds(buffer, restarts, counter, interval, layout, e);
      ExtendedLastKey(layout, e, m);
      var shared := 0;
      if counter < interval {
        shared := SharedWith(lastKey, key);
      } else {
        restarts := restarts + [|buffer|];
        counter := 0;
      }
      assert buffer + EntryBytes(shared, e)
          == buffer + Varint(shared) + Varint(|key| - shared) + Varint(|value|) + key[shared..] + value;
      buffer := buffer + Varint(shared) + Varint(|key| - shared) + Varint(|value|);
      buffer := buffer + key[shared..] + value;
      lastKey := lastKey[..shared] + key[shared..];
      assert lastKey == key;
      counter := counter + 1;
      layout := m;
    }

    /** Append the restart array: the result encodes everything added since the last reset. */
    method Finish() returns (block: Bytes)
      requires Valid() && !finished && CurrentSizeEstimate() < TWO32
      modifies this
      ensures Valid() && finished && block == buffer && layout == old(layout) && Encodes(block, layout)
      ensures |block| == old(CurrentSizeEstimate())
    {
      hide Building, Encodes, FixedArray, EncodeFixed32, Narrow;
      Finishes(buffer, restarts, counter, interval, layout);
      ghost var data := buffer;
      var i := 0;
      assert restarts[0..] == restarts;
      while i < |restarts|
        invariant 0 <= i <= |restarts| && layout == old(layout) && restarts == old(restarts)
        invariant Narrow(restarts[i..]) && buffer + FixedArray(restarts[i..]) == data + FixedArray(restarts)
      {
        FixedStep(restarts[i..]);
        assert restarts[i..][1..] == restarts[i + 1..];
        buffer := buffer + EncodeFixed32(restarts[i]);
        i := i + 1;
      }
      FixedNothing(restarts[i..]);
      assert buffer + [] == buffer;
      buffer := buffer + EncodeFixed32(|restarts|);
      finished := true;
      block := buffer;
    }
  }

  lemma ExtendedLastKey(l: Layout, e: Pair, m: Layout)
    requires m.entries == l.entries + [e]
    ensures LastKey(m) == e.key
  {
  }

  lemma Finishes(buffer: Bytes, restarts: seq<nat>, counter: nat, interval: nat, l: Layout)
    requires Building(buffer, restarts, counter, interval, l) && |buffer| + 4 * |restarts| + 4 < TWO32
    ensures Narrow(restarts) && Encodes(buffer + FixedArray(restarts) + EncodeFixed32(|restarts|), l)
  {
    hide Holds, Points, Policy, Encodes, FixedArray, EncodeFixed32;
    BuildingParts(buffer, restarts, counter, interval, l);
    FinishedBlock(buffer, l, restarts);
  }

  lemma EntrySize(shared: nat, e: Pair)
    requires shared <= |e.key| < TWO32 && |e.value| < TWO32
    ensures |EntryBytes(shared, e)| <= |e.key| + |e.value| + 15
  {
    hide Varint;
    Powers();
    VarintSize(shared, 5);
    VarintSize(|e.key| - shared, 5);
    VarintSize(|e.value|, 5);
  }

  /** Count the leading bytes two keys share. */
  method SharedWith(a: Bytes, b: Bytes) returns (shared: nat)
    ensures shared == CommonPrefix(a, b)
  {
    shared := 0;
    var minLength := if |a| < |b| then |a| else |b|;
    while shared < minLength && a[shared] == b[shared]
      invariant shared <= minLength && shared + CommonPrefix(a[shared..], b[shared..]) == CommonPrefix(a, b)
    {
      assert a[shared..][1..] == a[shared + 1..] && b[shared..][1..] == b[shared + 1..];
      shared := shared + 1;
    }
  }
}
