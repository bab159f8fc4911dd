/** `Block::Iter`: a cursor over the entries of a finished block, in both directions. */
module BlockIter {
  import opened BlockFormat
  import opened Coding
  import opened Keys

  // ---------------------------------------------------------------- reading a finished block

  function RestartPoint(block: Bytes, at: nat, i: nat): (p: nat)
    requires at + 4 * i + 4 <= |block|
  {
    DecodeFixed32(block[at + 4 * i..at + 4 * i + 4])
  }

  /** `Block::Block`: where the restart array starts and how long it is, unless the size is wrong. */
  function Open(block: Bytes): Option<(nat, nat)> {
    if |block| < 4 then None
    else
      var n := DecodeFixed32(block[|block| - 4..]);
      if n > (|block| - 4) / 4 then None else Some((|block| - (1 + n) * 4, n))
  }

  ghost predicate IsBlock(block: Bytes, l: Layout, at: nat, count: nat) {
    && Encodes(block, l) && at == l.offs[|l.entries|] && count == |l.marks| && at + 4 * count <= |block|
  }

  lemma OpensFinished(block: Bytes, l: Layout)
    requires Encodes(block, l)
    ensures Open(block).Some?
    ensures IsBlock(block, l, Open(block).value.0, Open(block).value.1) && Open(block).value.1 > 0
  {
    hide Holds, DecodeFixed32;
    HoldsShape(block, l);
  }

  lemma HoldsShape(data: Bytes, l: Layout)
    requires Holds(data, l)
    ensures Starts(l.offs, |l.entries|) && Shares(l.entries, l.shared) && Restarts(l.marks, l.shared, |l.entries|)
  {
  }

  /** Offsets are ordered as their entries. */
  lemma OffsetOrder(block: Bytes, l: Layout, at: nat, count: nat, i: nat, j: nat)
    requires IsBlock(block, l, at, count) && i <= |l.entries| && j <= |l.entries|
    ensures |l.offs| == |l.entries| + 1 && l.offs[|l.entries|] == at && l.offs[i] <= at
    ensures l.offs[i] < l.offs[j] <==> i < j
  {
  }

  lemma MarkAt(block: Bytes, l: Layout, at: nat, count: nat, i: nat)
    requires IsBlock(block, l, at, count) && i < count
    ensures i < |l.marks| && at + 4 * i + 4 <= |block| && l.marks[0] == 0
    ensures l.marks[i] <= |l.entries| < |l.offs| && RestartPoint(block, at, i) == l.offs[l.marks[i]]
    ensures i > 0 ==> l.marks[i] < |l.entries|
    ensures |l.shared| == |l.entries| && (l.marks[i] < |l.entries| ==> l.shared[l.marks[i]] == 0)
  {
    hide Holds, DecodeFixed32;
    HoldsShape(block, l);
    assert Mark(l, i) == l.marks[i];
  }

  /** Decoding the bytes from an entry to the restart array gives that entry's lengths, delta and value. */
  lemma DecodesEntry(block: Bytes, l: Layout, at: nat, count: nat, i: nat)
    requires IsBlock(block, l, at, count) && i < |l.entries|
    ensures |l.offs| == |l.entries| + 1 == |l.shared| + 1 && l.offs[i] < l.offs[i + 1] <= at <= |block|
    ensures
      var e, shared, end := l.entries[i], l.shared[i], l.offs[i + 1];
      && shared <= |e.key| && |e.key| - shared + |e.value| <= end - l.offs[i]
      && DecodeEntry(block[l.offs[i]..at])
         == Got(Header(shared, |e.key| - shared, |e.value|), block[end - (|e.key| - shared + |e.value|)..at])
      && block[end - (|e.key| - shared + |e.value|)..end - |e.value|] == e.key[shared..]
      && block[end - |e.value|..end] == e.value
  {
    hide *;
    EntryIsThere(block, l, at, count, i);
    var e, shared, end := l.entries[i], l.shared[i], l.offs[i + 1];
    EntryEnds(shared, e, block, l.offs[i], end);
    EntryDecodes(shared, e, block, l.offs[i], end, at);
  }

  lemma EntryDecodes(shared: nat, e: Pair, block: Bytes, start: nat, end: nat, at: nat)
    requires shared <= |e.key| < TWO32 && |e.key| - shared + |e.value| < TWO32 && start <= end <= at <= |block|
    requires block[start..end] == EntryBytes(shared, e)
    ensures |e.key| - shared + |e.value| <= end - start
    ensures DecodeEntry(block[start..at])
         == Got(Header(shared, |e.key| - shared, |e.value|), block[end - (|e.key| - shared + |e.value|)..at])
  {
    hide *;
    EntryEnds(shared, e, block, start, end);
    var tail := block[end..at];
    var body := e.key[shared..] + e.value;
    EntryRoundTrip(shared, e, tail);
    assert block[start..at] == block[start..end] + tail;
    assert block[end - |body|..at] == block[end - |body|..end] + tail;
  }

  lemma EntryIsThere(block: Bytes, l: Layout, at: nat, count: nat, i: nat)
    requires IsBlock(block, l, at, count) && i < |l.entries|
    ensures |l.offs| == |l.entries| + 1 == |l.shared| + 1 && l.offs[i] < l.offs[i + 1] <= at <= |block| < 0x1_0000_0000
    ensures l.shared[i] <= |l.entries[i].key| < TWO32 && |l.entries[i].value| < TWO32 && TWO32 == 0x1_0000_0000
    ensures block[l.offs[i]..l.offs[i + 1]] == EntryBytes(l.shared[i], l.entries[i])
  {
    hide RestartArray, EntryBytes, Restarts;
    assert EntryAt(block, l, i);
    assert |block| < TWO32 by { BlockSize(block, l, at, count); }
    assert l.offs[i + 1] <= l.offs[|l.entries|];
  }

  lemma BlockSize(block: Bytes, l: Layout, at: nat, count: nat)
    requires IsBlock(block, l, at, count)
    ensures |block| < TWO32
  {
    hide Holds;
    HoldsShape(block, l);
  }

  /** An entry ends with its key delta and its value. */
  lemma EntryEnds(shared: nat, e: Pair, block: Bytes, start: nat, end: nat)
    requires shared <= |e.key| && start <= end <= |block| && block[start..end] == EntryBytes(shared, e)
    ensures |e.key| - shared + |e.value| <= end - start
    ensures
      var body := e.key[shared..] + e.value;
      && block[end - |body|..end] == body && block[end - |body|..end - |e.value|] == e.key[shared..]
      && block[end - |e.value|..end] == e.value
  {
    hide Varint;
    var lengths := Varint(shared) + Varint(|e.key| - shared) + Varint(|e.value|);
    var body := e.key[shared..] + e.value;
    assert EntryBytes(shared, e) == lengths + body;
    Suffix(lengths, body, block, start, end);
    Suffix(e.key[shared..], e.value, block, end - |body|, end);
    Prefix(e.key[shared..], e.value, block, end - |body|, end);
  }

  lemma Prefix(a: Bytes, b: Bytes, block: Bytes, start: nat, end: nat)
    requires start <= end <= |block| && block[start..end] == a + b
    ensures |a| + |b| == end - start && block[start..end - |b|] == a
  {
    assert block[start..end - |b|] == block[start..end][..|a|];
  }

  lemma Suffix(a: Bytes, b: Bytes, block: Bytes, start: nat, end: nat)
    requires start <= end <= |block| && block[start..end] == a + b
    ensures |b| <= end - start && block[end - |b|..end] == b
  {
    assert block[end - |b|..end] == block[start..end][|a|..];
  }

  // ---------------------------------------------------------------- the cursor

  /** The cursor is at entry `pos`, or invalid when `pos` is the number of entries. */
  ghost predicate At(l: Layout, at: nat, count: nat, current: nat, restartIndex: nat, pos: nat)
    requires |l.offs| == |l.entries| + 1 && count == |l.marks|
  {
    && pos <= |l.entries|
    && if pos == |l.entries| then current == at && restartIndex == count
       else
         && current == l.offs[pos] && restartIndex < count && l.marks[restartIndex] <= pos
         && (restartIndex + 1 < count ==> pos <= l.marks[restartIndex + 1])
  }

  /** The next parse will read entry `i` and find the shared part of its key in `key`. */
  ghost predicate Ready(l: Layout, count: nat, nextOffset: nat, restartIndex: nat, key: Bytes, i: nat)
    requires |l.offs| == |l.entries| + 1 == |l.shared| + 1 && count == |l.marks|
  {
    && i <= |l.entries| && nextOffset == l.offs[i] && restartIndex < count && l.marks[restartIndex] <= i
    && (i < |l.entries| ==>
          l.shared[i] <= |key| && l.shared[i] <= |l.entries[i].key| && key[..l.shared[i]] == l.entries[i].key[..l.shared[i]])
  }

  /** Keys strictly increase in the comparator's order. */
  ghost predicate KeysSorted(rank: Bytes -> real, entries: seq<Pair>) {
    forall i, j :: 0 <= i < j < |entries| ==> rank(entries[i].key) < rank(entries[j].key)
  }

  /** Position of the first key at or after `target`. */
  ghost function FirstAtLeast(rank: Bytes -> real, entries: seq<Pair>, target: Bytes): (p: nat)
    ensures p <= |entries|
    ensures forall i :: 0 <= i < p ==> rank(entries[i].key) < rank(target)
    ensures p < |entries| ==> rank(entries[p].key) >= rank(target)
  {
    if entries == [] || rank(entries[0].key) >= rank(target) then 0
    else 1 + FirstAtLeast(rank, entries[1..], target)
  }

  lemma ReadyAfter(block: Bytes, l: Layout, at: nat, count: nat, restartIndex: nat, pos: nat)
    requires IsBlock(block, l, at, count) && pos < |l.entries| && restartIndex < count
    ensures |l.offs| == |l.entries| + 1 == |l.shared| + 1 && count == |l.marks|
    ensures l.marks[restartIndex] <= pos ==>
      Ready(l, count, l.offs[pos + 1], restartIndex, l.entries[pos].key, pos + 1)
  {
    hide RestartArray, EntryAt;
    HoldsShape(block, l);
  }

  lemma ReadyAtMark(block: Bytes, l: Layout, at: nat, count: nat, i: nat)
    requires IsBlock(block, l, at, count) && i < count
    ensures |l.offs| == |l.entries| + 1 == |l.shared| + 1 && count == |l.marks|
    ensures l.marks[i] <= |l.entries| && Ready(l, count, l.offs[l.marks[i]], i, [], l.marks[i])
  {
    hide RestartArray, EntryAt;
    HoldsShape(block, l);
  }

  class Iter {
    const rank: Bytes -> real
    const data: Bytes
    const restarts: nat
    const numRestarts: nat
    ghost const l: Layout
    var current: nat
    var restartIndex: nat
    var key: Bytes
    var valueAt: nat
    var valueSize: nat
    var corrupt: bool
    ghost var pos: nat

    ghost predicate Block() {
      IsBlock(data, l, restarts, numRestarts) && |l.offs| == |l.entries| + 1 == |l.shared| + 1 && |l.marks| == numRestarts > 0
    }

    ghost predicate Valid() reads this {
      && Block() && !corrupt && At(l, restarts, numRestarts, current, restartIndex, pos)
      && (pos < |l.entries| ==>
            && key == l.entries[pos].key && valueAt + valueSize == l.offs[pos + 1] <= |data|
            && data[valueAt..valueAt + valueSize] == l.entries[pos].value)
    }

    ghost predicate CanParse(i: nat) reads this {
      Block() && !corrupt && Ready(l, numRestarts, valueAt + valueSize, restartIndex, key, i)
    }

    /** The source's test for being at an entry. */
    lemma WhereValid()
      requires Valid()
      ensures |l.offs| == |l.entries| + 1 && pos <= |l.entries| && (current < restarts <==> pos < |l.entries|)
    {
      OffsetOrder(data, l, restarts, numRestarts, pos, |l.entries|);
      hide IsBlock;
    }

    lemma WhatKey()
      requires Valid() && pos < |l.entries|
      ensures key == l.entries[pos].key
    {
    }

    method Value() returns (v: Bytes)
      requires Valid() && pos < |l.entries|
      ensures v == l.entries[pos].value
    {
      v := data[valueAt..valueAt + valueSize];
    }

    constructor (rank: Bytes -> real, block: Bytes, ghost l: Layout)
      requires Encodes(block, l)
      ensures Valid() && pos == |l.entries| && this.rank == rank && this.data == block && this.l == l
    {
      OpensFinished(block, l);
      HoldsShape(block, l);
      var shape := Open(block).value;
      this.rank, data, restarts, numRestarts, this.l := rank, block, shape.0, shape.1, l;
      current, restartIndex, key, valueAt, valueSize, corrupt := shape.0, shape.1, [], 0, 0, false;
      pos := |l.entries|;
    }

    method GetRestartPoint(index: nat) returns (p: nat)
      requires Block() && index < numRestarts
      ensures l.marks[index] <= |l.entries| && p == l.offs[l.marks[index]]
    {
      MarkAt(data, l, restarts, numRestarts, index);
      p := RestartPoint(data, restarts, index);
    }

    method SeekToRestartPoint(index: nat)
      requires Block() && !corrupt && index < numRestarts
      modifies this
      ensures l.marks[index] <= |l.entries| && CanParse(l.marks[index])
    {
      hide IsBlock;
      ReadyAtMark(data, l, restarts, numRestarts, index);
      key, restartIndex := [], index;
      valueAt := GetRestartPoint(index);
      valueSize := 0;
    }

    /** Parse the entry that the last value ends at: entry `i`, unless there is none. */
    method ParseNextKey(ghost i: nat) returns (ok: bool)
      requires CanParse(i)
      modifies this
      ensures Valid() && pos == i && (ok <==> i < |l.entries|)
    {
      hide IsBlock, Ready, At, DecodeEntry, RestartPoint;
      ReadyMeans(data, l, restarts, numRestarts, valueAt + valueSize, restartIndex, key, i);
      current := valueAt + valueSize;
      pos := i;
      if current >= restarts {
        current, restartIndex := restarts, numRestarts;
        AtEnd(l, restarts, numRestarts);
        return false;
      }
      DecodesEntry(data, l, restarts, numRestarts, i);
      var rest := DecodeEntry(data[current..restarts]);
      var h := rest.value;
      var p := restarts - |rest.rest|;
      Rejoin(key, l.entries[i].key, h.shared);
      key := key[..h.shared] + data[p..p + h.nonShared];
      valueAt, valueSize := p + h.nonShared, h.valueLength;
      AdvanceRestart(i);
      ok := true;
    }

    /** Move on to the restart block that the current entry falls in. */
    method AdvanceRestart(ghost i: nat)
      requires Block() && i < |l.entries| && current == l.offs[i] && restartIndex < numRestarts && l.marks[restartIndex] <= i
      modifies `restartIndex
      ensures At(l, restarts, numRestarts, current, restartIndex, i)
    {
      hide IsBlock, RestartPoint;
      while restartIndex + 1 < numRestarts
        invariant restartIndex < numRestarts && l.marks[restartIndex] <= i
      {
        var p := GetRestartPoint(restartIndex + 1);
        OffsetOrder(data, l, restarts, numRestarts, l.marks[restartIndex + 1], i);
        if p >= current { break; }
        restartIndex := restartIndex + 1;
      }
    }
  
    // -------------------------------------------------------------- the iterator's operations

    method Next()
      requires Valid() && pos < |l.entries|
      modifies this
      ensures Valid() && pos == old(pos) + 1
    {
      hide IsBlock, Ready, At;
      AtMeans(l, restarts, numRestarts, current, restartIndex, pos);
      ReadyAfter(data, l, restarts, numRestarts, restartIndex, pos);
      var _ := ParseNextKey(pos + 1);
    }

    /** Back up to a restart point before the current entry, then parse forward to the entry before it. */
    method Prev()
      requires Valid() && pos < |l.entries|
      modifies this
      ensures Valid() && pos == if old(pos) == 0 then |l.entries| else old(pos) - 1
    {
      hide IsBlock, Ready, At;
      AtMeans(l, restarts, numRestarts, current, restartIndex, pos);
      var original := current;
      ghost var p0 := pos;
      var p := GetRestartPoint(restartIndex);
      while p >= original
        invariant restartIndex < numRestarts && !corrupt
        invariant l.marks[restartIndex] <= |l.entries| && p == l.offs[l.marks[restartIndex]]
        decreases restartIndex
        modifies this
      {
        if restartIndex == 0 {
          current, restartIndex, pos := restarts, numRestarts, |l.entries|;
          AtEnd(l, restarts, numRestarts);
          MarkAt(data, l, restarts, numRestarts, 0);
          OffsetOrder(data, l, restarts, numRestarts, 0, p0);
          return;
        }
        restartIndex := restartIndex - 1;
        p := GetRestartPoint(restartIndex);
      }
      ghost var i := l.marks[restartIndex];
      OffsetOrder(data, l, restarts, numRestarts, i, p0);
      SeekToRestartPoint(restartIndex);
      var ok := ParseNextKey(i);
      while ok && valueAt + valueSize < original
        invariant Valid() && pos == i < p0 && ok
        decreases p0 - i
      {
        OffsetOrder(data, l, restarts, numRestarts, i + 1, p0);
        AtMeans(l, restarts, numRestarts, current, restartIndex, pos);
        ReadyAfter(data, l, restarts, numRestarts, restartIndex, pos);
        i := i + 1;
        ok := ParseNextKey(i);
      }
      OffsetOrder(data, l, restarts, numRestarts, i + 1, p0);
    }

    method SeekToFirst()
      requires Valid()
      modifies this
      ensures Valid() && pos == 0
    {
      hide IsBlock, Ready, At;
      MarkAt(data, l, restarts, numRestarts, 0);
      SeekToRestartPoint(0);
      var _ := ParseNextKey(0);
    }

    method SeekToLast()
      requires Valid()
      modifies this
      ensures Valid() && pos == if l.entries == [] then 0 else |l.entries| - 1
    {
      hide IsBlock, Ready, At;
      ghost var i, n := l.marks[numRestarts - 1], |l.entries|;
      MarkAt(data, l, restarts, numRestarts, numRestarts - 1);
      SeekToRestartPoint(numRestarts - 1);
      OffsetOrder(data, l, restarts, numRestarts, n, n);
      var ok := ParseNextKey(i);
      while ok && valueAt + valueSize < restarts
        invariant Valid() && pos == i <= n && (ok <==> i < n) && (i == n ==> n == 0)
        decreases n - i
      {
        OffsetOrder(data, l, restarts, numRestarts, i + 1, n);
        AtMeans(l, restarts, numRestarts, current, restartIndex, pos);
        ReadyAfter(data, l, restarts, numRestarts, restartIndex, pos);
        i := i + 1;
        ok := ParseNextKey(i);
      }
      if i < n {
        OffsetOrder(data, l, restarts, numRestarts, i + 1, n);
      }
    }

    /** Binary search over the restart points, then a linear search, for the first key at or after `target`. */
    method Seek(target: Bytes)
      requires Valid() && KeysSorted(rank, l.entries)
      modifies this
      ensures Valid() && pos == FirstAtLeast(rank, l.entries, target)
    {
      hide IsBlock, Ready, At, DecodeEntry, KeysSorted;
      var left, right := 0, numRestarts - 1;
      while left < right
        invariant left <= right < numRestarts
        invariant left > 0 ==> l.marks[left] < |l.entries| && rank(l.entries[l.marks[left]].key) < rank(target)
        modifies {}
      {
        var mid := (left + right + 1) / 2;
        var regionOffset := GetRestartPoint(mid);
        MarkAt(data, l, restarts, numRestarts, mid);
        DecodesEntry(data, l, restarts, numRestarts, l.marks[mid]);
        var rest := DecodeEntry(data[regionOffset..restarts]);
        var p := restarts - |rest.rest|;
        var midKey := data[p..p + rest.value.nonShared];
        assert midKey == l.entries[l.marks[mid]].key;
        if rank(midKey) < rank(target) {
          left := mid;
        } else {
          right := mid - 1;
        }
      }
      ghost var i := l.marks[left];
      MarkAt(data, l, restarts, numRestarts, left);
      BelowMark(rank, l.entries, i, target);
      SeekToRestartPoint(left);
      while true
        invariant !corrupt && i <= |l.entries| && CanParse(i)
        invariant forall k :: 0 <= k < i ==> rank(l.entries[k].key) < rank(target)
        decreases |l.entries| - i
      {
        var ok := ParseNextKey(i);
        if !ok || rank(key) >= rank(target) {
          FirstIsUnique(rank, l.entries, target, pos);
          return;
        }
        AtMeans(l, restarts, numRestarts, current, restartIndex, pos);
        ReadyAfter(data, l, restarts, numRestarts, restartIndex, pos);
        i := i + 1;
      }
    }
  }

  lemma BelowMark(rank: Bytes -> real, entries: seq<Pair>, i: nat, target: Bytes)
    requires KeysSorted(rank, entries) && (0 < i ==> i < |entries| && rank(entries[i].key) < rank(target))
    ensures forall k :: 0 <= k < i ==> rank(entries[k].key) < rank(target)
  {
  }

  lemma AtMeans(l: Layout, at: nat, count: nat, current: nat, restartIndex: nat, pos: nat)
    requires |l.offs| == |l.entries| + 1 && count == |l.marks| && At(l, at, count, current, restartIndex, pos)
    requires pos < |l.entries|
    ensures current == l.offs[pos] && restartIndex < count && l.marks[restartIndex] <= pos
  {
  }

  /** The first key at or after the target is the only position that splits the keys around it. */
  lemma {:induction false} FirstIsUnique(rank: Bytes -> real, entries: seq<Pair>, target: Bytes, p: nat)
    requires p <= |entries| && forall i :: 0 <= i < p ==> rank(entries[i].key) < rank(target)
    requires p < |entries| ==> rank(entries[p].key) >= rank(target)
    ensures p == FirstAtLeast(rank, entries, target)
  {
    if p > 0 {
      assert rank(entries[0].key) < rank(target);
      forall i | 0 <= i < p - 1
        ensures rank(entries[1..][i].key) < rank(target)
      {
        assert entries[1..][i] == entries[i + 1];
      }
      FirstIsUnique(rank, entries[1..], target, p - 1);
    }
  }

  lemma Rejoin(prefix: Bytes, key: Bytes, n: nat)
    requires n <= |prefix| && n <= |key| && prefix[..n] == key[..n]
    ensures prefix[..n] + key[n..] == key
  {
  }

  lemma ReadyMeans(block: Bytes, l: Layout, at: nat, count: nat, nextOffset: nat, restartIndex: nat, key: Bytes, i: nat)
    requires IsBlock(block, l, at, count) && |l.offs| == |l.entries| + 1 == |l.shared| + 1 && count == |l.marks|
    requires Ready(l, count, nextOffset, restartIndex, key, i)
    ensures i <= |l.entries| && nextOffset == l.offs[i] && restartIndex < count && l.marks[restartIndex] <= i
    ensures nextOffset >= at <==> i == |l.entries|
    ensures i < |l.entries| ==>
      && l.shared[i] <= |key| && l.shared[i] <= |l.entries[i].key|
      && key[..l.shared[i]] == l.entries[i].key[..l.shared[i]]
  {
    OffsetOrder(block, l, at, count, i, |l.entries|);
    hide IsBlock;
  }

  lemma AtEnd(l: Layout, at: nat, count: nat)
    requires |l.offs| == |l.entries| + 1 && count == |l.marks|
    ensures At(l, at, count, at, count, |l.entries|)
  {
  }
}
