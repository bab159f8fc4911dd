/** Reading a table: the two-level iterator over index and data blocks, and point lookup through the filter. */
module TableReader {
  import opened BlockFormat
  import opened BlockIter
  import opened Coding
  import opened Keys
  import opened TableFormat
  import LogFormat

  // ---------------------------------------------------------------- positions

  function Total(blocks: seq<Stored>, i: nat): nat
    requires i <= |blocks|
  {
    |Entries(blocks[..i])|
  }

  lemma TotalStep(blocks: seq<Stored>, i: nat)
    requires i < |blocks|
    ensures Total(blocks, i + 1) == Total(blocks, i) + |blocks[i].layout.entries|
    ensures Entries(blocks[..i + 1]) == Entries(blocks[..i]) + blocks[i].layout.entries
  {
    assert blocks[..i + 1][..i] == blocks[..i];
  }

  lemma {:induction false} PrefixEntries(blocks: seq<Stored>, i: nat)
    requires i <= |blocks|
    ensures Total(blocks, i) <= |Entries(blocks)| && Entries(blocks)[..Total(blocks, i)] == Entries(blocks[..i])
    decreases |blocks|
  {
    if i == |blocks| {
      assert blocks[..i] == blocks;
    } else {
      var init := blocks[..|blocks| - 1];
      PrefixEntries(init, i);
      assert init[..i] == blocks[..i];
    }
  }

  /** The entry at a place of a block is at that place behind the earlier blocks' entries. */
  lemma EntryPlace(blocks: seq<Stored>, i: nat, p: nat)
    requires i < |blocks| && p < |blocks[i].layout.entries|
    ensures Total(blocks, i) + p < |Entries(blocks)|
    ensures Entries(blocks)[Total(blocks, i) + p] == blocks[i].layout.entries[p]
  {
    hide Entries;
    TotalStep(blocks, i);
    PrefixEntries(blocks, i + 1);
    assert Entries(blocks)[Total(blocks, i) + p] == Entries(blocks[..i + 1])[Total(blocks, i) + p];
  }

  lemma {:induction false} TotalGrows(blocks: seq<Stored>, i: nat, j: nat)
    requires i <= j <= |blocks|
    ensures Total(blocks, i) <= Total(blocks, j) && Total(blocks, |blocks|) == |Entries(blocks)| && Total(blocks, 0) == 0
    decreases j - i
  {
    assert blocks[..|blocks|] == blocks && blocks[..0] == [];
    if i < j {
      TotalStep(blocks, i);
      TotalGrows(blocks, i + 1, j);
    }
  }

  // ---------------------------------------------------------------- where a seek lands

  lemma BlockSorted(crc: LogFormat.Crc, rank: Bytes -> real, file: Bytes, blocks: seq<Stored>, index: Layout, i: nat)
    requires TableOk(crc, rank, file, blocks, index) && i < |blocks|
    ensures KeysSorted(rank, blocks[i].layout.entries) && blocks[i].layout.entries != []
  {
    hide Entries, Encodes, Trailer;
    assert StoredOk(crc, file, blocks[i]);
    var es := blocks[i].layout.entries;
    forall p, q | 0 <= p < q < |es|
      ensures rank(es[p].key) < rank(es[q].key)
    {
      EntryPlace(blocks, i, p);
      EntryPlace(blocks, i, q);
    }
  }

  lemma IndexSorted(crc: LogFormat.Crc, rank: Bytes -> real, file: Bytes, blocks: seq<Stored>, index: Layout)
    requires TableOk(crc, rank, file, blocks, index)
    ensures KeysSorted(rank, index.entries)
  {
    hide Entries, Encodes, Trailer, KeysSorted;
    forall i, j | 0 <= i < j < |index.entries|
      ensures rank(index.entries[i].key) < rank(index.entries[j].key)
    {
      BlockSorted(crc, rank, file, blocks, index, j);
      var e := blocks[j].layout.entries[0];
      assert e in blocks[j].layout.entries;
      assert Separates(rank, blocks, index.entries, i) && Separates(rank, blocks, index.entries, j);
    }
    assert KeysSorted(rank, index.entries) by { SortedBy(rank, index.entries); }
  }

  lemma SortedBy(rank: Bytes -> real, es: seq<Pair>)
    requires forall i, j :: 0 <= i < j < |es| ==> rank(es[i].key) < rank(es[j].key)
    ensures KeysSorted(rank, es)
  {
  }

  /** Which entries come before the target, block by block. */
  lemma BeforeTarget(crc: LogFormat.Crc, rank: Bytes -> real, file: Bytes, blocks: seq<Stored>, index: Layout, target: Bytes,
      j: nat, q: nat)
    requires TableOk(crc, rank, file, blocks, index) && j < |blocks| && q < |blocks[j].layout.entries|
    ensures
      var i := FirstAtLeast(rank, index.entries, target);
      && i <= |blocks|
      && (j < i ==> rank(blocks[j].layout.entries[q].key) < rank(target))
      && (j > i ==> rank(blocks[j].layout.entries[q].key) >= rank(target))
  {
    hide Entries, KeysSorted;
    var i := FirstAtLeast(rank, index.entries, target);
    var e := blocks[j].layout.entries[q];
    assert e in blocks[j].layout.entries;
    assert Separates(rank, blocks, index.entries, j);
    if j > i {
      assert Separates(rank, blocks, index.entries, i);
    }
  }

  /** Flat position of the first entry at or after the target: in the sought block, or at the next block's start. */
  lemma SeekLands(crc: LogFormat.Crc, rank: Bytes -> real, file: Bytes, blocks: seq<Stored>, index: Layout, target: Bytes)
    requires TableOk(crc, rank, file, blocks, index)
    ensures
      var i := FirstAtLeast(rank, index.entries, target);
      && i <= |blocks|
      && FirstAtLeast(rank, Entries(blocks), target) ==
           Total(blocks, i) + if i < |blocks| then FirstAtLeast(rank, blocks[i].layout.entries, target) else 0
  {
    hide *;
    var i := FirstAtLeast(rank, index.entries, target);
    IndexCount(crc, rank, file, blocks, index);
    var p := if i < |blocks| then FirstAtLeast(rank, blocks[i].layout.entries, target) else 0;
    var at := Total(blocks, i) + p;
    TotalGrows(blocks, i, |blocks|);
    if i < |blocks| { TotalStep(blocks, i); TotalGrows(blocks, i + 1, |blocks|); }
    forall k | 0 <= k < |Entries(blocks)|
      ensures rank(Entries(blocks)[k].key) < rank(target) <==> k < at
    {
      OneBefore(crc, rank, file, blocks, index, target, i, p, k);
    }
    FirstIsUnique(rank, Entries(blocks), target, at);
  }

  lemma IndexCount(crc: LogFormat.Crc, rank: Bytes -> real, file: Bytes, blocks: seq<Stored>, index: Layout)
    requires TableOk(crc, rank, file, blocks, index)
    ensures |index.entries| == |blocks|
  {
  }

  lemma OneBefore(crc: LogFormat.Crc, rank: Bytes -> real, file: Bytes, blocks: seq<Stored>, index: Layout, target: Bytes,
      i: nat, p: nat, k: nat)
    requires TableOk(crc, rank, file, blocks, index) && i == FirstAtLeast(rank, index.entries, target) <= |blocks|
    requires p == if i < |blocks| then FirstAtLeast(rank, blocks[i].layout.entries, target) else 0
    requires k < |Entries(blocks)|
    ensures rank(Entries(blocks)[k].key) < rank(target) <==> k < Total(blocks, i) + p
  {
    hide *;
    var j, q := PlaceOf(blocks, k);
    EntryPlace(blocks, j, q);
    BeforeTarget(crc, rank, file, blocks, index, target, j, q);
    if j < i {
      TotalStep(blocks, j);
      TotalGrows(blocks, j + 1, i);
    } else if j > i {
      TotalStep(blocks, i);
      TotalGrows(blocks, i + 1, j);
    } else {
      InBlock(crc, rank, file, blocks, index, target, i, q);
    }
  }

  lemma InBlock(crc: LogFormat.Crc, rank: Bytes -> real, file: Bytes, blocks: seq<Stored>, index: Layout, target: Bytes, i: nat, q: nat)
    requires TableOk(crc, rank, file, blocks, index) && i < |blocks| && q < |blocks[i].layout.entries|
    ensures rank(blocks[i].layout.entries[q].key) < rank(target) <==> q < FirstAtLeast(rank, blocks[i].layout.entries, target)
  {
    hide *;
    BlockSorted(crc, rank, file, blocks, index, i);
    OneSide(rank, blocks[i].layout.entries, target, q);
  }

  lemma OneSide(rank: Bytes -> real, es: seq<Pair>, target: Bytes, q: nat)
    requires KeysSorted(rank, es) && q < |es|
    ensures rank(es[q].key) < rank(target) <==> q < FirstAtLeast(rank, es, target)
  {
  }

  /** Block and place of a flat position. */
  lemma {:induction false} PlaceOf(blocks: seq<Stored>, k: nat) returns (j: nat, q: nat)
    requires k < |Entries(blocks)|
    ensures j < |blocks| && q < |blocks[j].layout.entries| && k == Total(blocks, j) + q
  {
    var n := |blocks| - 1;
    if k < |Entries(blocks[..n])| {
      j, q := PlaceOf(blocks[..n], k);
      assert blocks[..n][..j] == blocks[..j];
    } else {
      j, q := n, k - |Entries(blocks[..n])|;
    }
  }

  // ---------------------------------------------------------------- the two-level iterator

  class TwoLevelIterator {
    const crc: LogFormat.Crc
    const rank: Bytes -> real
    const file: Bytes
    const verify: bool
    const indexIter: Iter
    var dataIter: Iter?
    var dataBlockHandle: Bytes
    ghost const blocks: seq<Stored>
    ghost const index: Layout
    ghost var cur: nat

    /** The index iterator is over the index, and the data iterator, if there is one, over block `cur`. */
    ghost predicate Base()
      reads this, indexIter, dataIter
    {
      && TableOk(crc, rank, file, blocks, index)
      && indexIter.Valid() && indexIter.l == index && indexIter.rank == rank
      && (dataIter != null ==>
            && dataIter != indexIter && dataIter.Valid() && dataIter.rank == rank
            && cur < |blocks| && dataIter.l == blocks[cur].layout && dataBlockHandle == HandleBytes(blocks[cur].handle))
    }

    /** The iterator is at entry `p` of block `i`. */
    ghost predicate At(i: nat, p: nat)
      reads this, indexIter, dataIter
    {
      Base() && dataIter != null && i < |blocks| && cur == i == indexIter.pos && dataIter.pos == p < |blocks[i].layout.entries|
    }

    ghost predicate AtEnd()
      reads this, indexIter, dataIter
    {
      Base() && dataIter == null
    }

    /** The iterator stands at a flat position; the number of entries means that it is not valid. */
    ghost predicate Stands(g: nat)
      reads this, indexIter, dataIter
    {
      if g == |Entries(blocks)| then AtEnd()
      else exists i: nat, p: nat :: At(i, p) && g == Total(blocks, i) + p
    }

    constructor (crc: LogFormat.Crc, rank: Bytes -> real, file: Bytes, verify: bool, indexBlock: Bytes,
        ghost blocks: seq<Stored>, ghost index: Layout)
      requires TableOk(crc, rank, file, blocks, index) && Encodes(indexBlock, index)
      ensures Stands(|Entries(blocks)|) && fresh(indexIter) && this.blocks == blocks && this.rank == rank
    {
      this.crc, this.rank, this.file, this.verify, this.blocks, this.index := crc, rank, file, verify, blocks, index;
      indexIter := new Iter(rank, indexBlock, index);
      dataIter, dataBlockHandle, cur := null, [], 0;
    }

    /** Make the data iterator the one of the block that the index iterator is at. */
    method InitDataBlock()
      requires Base()
      modifies this
      ensures Base() && (dataIter == old(dataIter) || dataIter == null || fresh(dataIter))
      ensures indexIter.pos == |blocks| ==> dataIter == null
      ensures indexIter.pos < |blocks| ==> dataIter != null && cur == indexIter.pos
    {
      hide TableOk, Iter.Valid;
      IndexCount(crc, rank, file, blocks, index);
      indexIter.WhereValid();
      if indexIter.current >= indexIter.restarts {
        dataIter := null;
      } else {
        ghost var i := indexIter.pos;
        IndexEntry(crc, rank, file, blocks, index, i);
        var handle := indexIter.Value();
        if dataIter != null && handle == dataBlockHandle {
          SameHandle(crc, rank, file, blocks, index, i, cur);
        } else {
          var decoded := TakeHandle(handle);
          IndexedReads(crc, rank, file, blocks, index, i, verify);
          var contents := ReadBlock(crc, file, decoded.value, verify);
          dataIter := new Iter(rank, contents.value, blocks[i].layout);
          dataBlockHandle := handle;
          cur := i;
        }
      }
    }

    /** Whether the data iterator is at an entry, and where. */
    ghost predicate InEntry()
      reads this, dataIter
    {
      dataIter != null && dataIter.pos < |dataIter.l.entries|
    }

    lemma EntryTest()
      requires Base() && dataIter != null
      ensures dataIter.current < dataIter.restarts <==> InEntry()
      ensures |index.entries| == |blocks| && indexIter.pos <= |blocks|
    {
      IndexCount(crc, rank, file, blocks, index);
      hide TableOk;
      dataIter.WhereValid();
      indexIter.WhereValid();
    }

    lemma IndexTest()
      requires Base()
      ensures |index.entries| == |blocks| && indexIter.pos <= |blocks|
      ensures indexIter.current < indexIter.restarts <==> indexIter.pos < |blocks|
    {
      IndexCount(crc, rank, file, blocks, index);
      hide TableOk;
      indexIter.WhereValid();
    }

    lemma NotEmpty(i: nat)
      requires Base() && i < |blocks|
      ensures blocks[i].layout.entries != []
    {
      BlockSorted(crc, rank, file, blocks, index, i);
    }

    /** Without an entry in the data block, go on to the first one of the next block. */
    method SkipEmptyDataBlocksForward()
      requires Base() && (InEntry() ==> cur == indexIter.pos)
      modifies this, indexIter, dataIter
      ensures Base() && (dataIter == old(dataIter) || dataIter == null || fresh(dataIter))
      ensures old(InEntry()) ==> dataIter == old(dataIter) && At(old(cur), old(dataIter.pos))
      ensures !old(InEntry()) ==> if old(indexIter.pos) + 1 < |blocks| then At(old(indexIter.pos) + 1, 0) else AtEnd()
    {
      hide TableOk, Iter.Valid;
      ghost var moved, i := false, indexIter.pos;
      while true
        invariant Base() && (dataIter == old(dataIter) || dataIter == null || fresh(dataIter))
        invariant !moved ==> indexIter.pos == i && dataIter == old(dataIter) && InEntry() == old(InEntry()) && cur == old(cur)
        invariant !moved && dataIter != null ==> dataIter.pos == old(dataIter.pos)
        invariant moved ==> !old(InEntry()) && (if i + 1 < |blocks| then At(i + 1, 0) else dataIter == null && indexIter.pos == |blocks|)
        decreases !moved
      {
        IndexTest();
        if dataIter != null {
          EntryTest();
          if dataIter.current < dataIter.restarts { break; }
        }
        if indexIter.current >= indexIter.restarts {
          dataIter := null;
          break;
        }
        indexIter.Next();
        InitDataBlock();
        if dataIter != null {
          NotEmpty(cur);
          dataIter.SeekToFirst();
        }
        moved := true;
      }
    }

    /** Without an entry in the data block, go back to the last one of the block before. */
    method SkipEmptyDataBlocksBackward()
      requires Base() && (InEntry() ==> cur == indexIter.pos)
      modifies this, indexIter, dataIter
      ensures Base() && (dataIter == old(dataIter) || dataIter == null || fresh(dataIter))
      ensures old(InEntry()) ==> dataIter == old(dataIter) && At(old(cur), old(dataIter.pos))
      ensures !old(InEntry()) ==>
        if 0 < old(indexIter.pos) < |blocks|
        then blocks[old(indexIter.pos) - 1].layout.entries != []
          && At(old(indexIter.pos) - 1, |blocks[old(indexIter.pos) - 1].layout.entries| - 1)
        else AtEnd()
    {
      hide TableOk, Iter.Valid;
      ghost var moved, i := false, indexIter.pos;
      while true
        invariant Base() && (dataIter == old(dataIter) || dataIter == null || fresh(dataIter))
        invariant !moved ==> indexIter.pos == i && dataIter == old(dataIter) && InEntry() == old(InEntry()) && cur == old(cur)
        invariant !moved && dataIter != null ==> dataIter.pos == old(dataIter.pos)
        invariant moved ==>
          && !old(InEntry()) && i < |blocks|
          && (0 < i ==> blocks[i - 1].layout.entries != [] && At(i - 1, |blocks[i - 1].layout.entries| - 1))
          && (i == 0 ==> dataIter == null && indexIter.pos == |blocks|)
        decreases !moved
      {
        IndexTest();
        if dataIter != null {
          EntryTest();
          if dataIter.current < dataIter.restarts { break; }
        }
        if indexIter.current >= indexIter.restarts {
          dataIter := null;
          break;
        }
        indexIter.Prev();
        InitDataBlock();
        if dataIter != null {
          NotEmpty(cur);
          dataIter.SeekToLast();
        }
        moved := true;
      }
    }

    // -------------------------------------------------------------- the operations, on flat positions

    method Next(ghost g: nat)
      requires Stands(g) && g < |Entries(blocks)|
      modifies this, indexIter, dataIter
      ensures Stands(g + 1) && (dataIter == old(dataIter) || dataIter == null || fresh(dataIter))
    {
      hide TableOk, Entries, Total, Iter.Valid;
      ghost var i: nat, p: nat :| At(i, p) && g == Total(blocks, i) + p;
      FlatStep(blocks, i, p);
      dataIter.Next();
      SkipEmptyDataBlocksForward();
      assert p + 1 < |blocks[i].layout.entries| ==> At(i, p + 1);
      assert p + 1 == |blocks[i].layout.entries| && i + 1 < |blocks| ==> At(i + 1, 0) && g + 1 == Total(blocks, i + 1) + 0;
    }

    method Prev(ghost g: nat)
      requires Stands(g) && g < |Entries(blocks)|
      modifies this, indexIter, dataIter
      ensures Stands(if g == 0 then |Entries(blocks)| else g - 1)
      ensures dataIter == old(dataIter) || dataIter == null || fresh(dataIter)
    {
      hide TableOk, Entries, Total, Iter.Valid;
      ghost var i: nat, p: nat :| At(i, p) && g == Total(blocks, i) + p;
      FlatStep(blocks, i, p);
      if i > 0 {
        NotEmpty(i - 1);
        FlatStep(blocks, i - 1, |blocks[i - 1].layout.entries| - 1);
      }
      dataIter.Prev();
      SkipEmptyDataBlocksBackward();
      if p > 0 {
        assert At(i, p - 1) && g - 1 == Total(blocks, i) + (p - 1);
      } else if i > 0 {
        assert At(i - 1, |blocks[i - 1].layout.entries| - 1);
      }
    }

    method SeekToFirst()
      requires Base()
      modifies this, indexIter, dataIter
      ensures Stands(0) && (dataIter == old(dataIter) || dataIter == null || fresh(dataIter))
    {
      hide TableOk, Entries, Total, Iter.Valid;
      IndexTest();
      TotalGrows(blocks, 0, |blocks|);
      indexIter.SeekToFirst();
      InitDataBlock();
      if dataIter != null {
        NotEmpty(0);
        FlatStep(blocks, 0, 0);
        dataIter.SeekToFirst();
      }
      SkipEmptyDataBlocksForward();
      assert |blocks| > 0 ==> At(0, 0) && 0 == Total(blocks, 0) + 0;
    }

    method SeekToLast()
      requires Base()
      modifies this, indexIter, dataIter
      ensures Stands(if Entries(blocks) == [] then 0 else |Entries(blocks)| - 1)
      ensures dataIter == old(dataIter) || dataIter == null || fresh(dataIter)
    {
      hide TableOk, Entries, Total, Iter.Valid;
      IndexTest();
      TotalGrows(blocks, 0, |blocks|);
      ghost var n := |blocks|;
      indexIter.SeekToLast();
      InitDataBlock();
      if dataIter != null {
        NotEmpty(n - 1);
        FlatStep(blocks, n - 1, |blocks[n - 1].layout.entries| - 1);
        dataIter.SeekToLast();
      }
      SkipEmptyDataBlocksBackward();
      assert n > 0 ==> At(n - 1, |blocks[n - 1].layout.entries| - 1);
    }

    /** A seek through the shortened index keys lands where a scan of all entries would. */
    method Seek(target: Bytes)
      requires Base()
      modifies this, indexIter, dataIter
      ensures Stands(FirstAtLeast(rank, Entries(blocks), target))
      ensures dataIter == old(dataIter) || dataIter == null || fresh(dataIter)
    {
      hide TableOk, Entries, Total, Iter.Valid, KeysSorted;
      IndexTest();
      SoughtPlace(crc, rank, file, blocks, index, target);
      ghost var g := FirstAtLeast(rank, Entries(blocks), target);
      indexIter.Seek(target);
      ghost var i := indexIter.pos;
      InitDataBlock();
      if dataIter != null {
        dataIter.Seek(target);
      }
      ghost var p := SoughtIn(rank, blocks, i, target);
      SkipEmptyDataBlocksForward();
      assert i < |blocks| && p < |blocks[i].layout.entries| ==> At(i, p) && g == Total(blocks, i) + p;
      assert !(i < |blocks| && p < |blocks[i].layout.entries|) && i + 1 < |blocks| ==> At(i + 1, 0) && g == Total(blocks, i + 1) + 0;
    }

    /** The pair at a valid position. */
    method Current(ghost g: nat) returns (key: Bytes, value: Bytes)
      requires Stands(g) && g < |Entries(blocks)|
      ensures Pair(key, value) == Entries(blocks)[g]
    {
      hide TableOk, Entries, Total;
      ghost var i: nat, p: nat :| At(i, p) && g == Total(blocks, i) + p;
      EntryPlace(blocks, i, p);
      key := dataIter.key;
      value := dataIter.Value();
    }
  }

  /** Where a seek lands within block `i`. */
  ghost function SoughtIn(rank: Bytes -> real, blocks: seq<Stored>, i: nat, target: Bytes): nat {
    if i < |blocks| then FirstAtLeast(rank, blocks[i].layout.entries, target) else 0
  }

  lemma SoughtPlace(crc: LogFormat.Crc, rank: Bytes -> real, file: Bytes, blocks: seq<Stored>, index: Layout, target: Bytes)
    requires TableOk(crc, rank, file, blocks, index)
    ensures KeysSorted(rank, index.entries)
    ensures
      var i := FirstAtLeast(rank, index.entries, target);
      var p, g := SoughtIn(rank, blocks, i, target), FirstAtLeast(rank, Entries(blocks), target);
      && (i < |blocks| ==> KeysSorted(rank, blocks[i].layout.entries) && p == FirstAtLeast(rank, blocks[i].layout.entries, target))
      && if i < |blocks| && p < |blocks[i].layout.entries| then g == Total(blocks, i) + p < |Entries(blocks)|
         else if i + 1 < |blocks| then g == Total(blocks, i + 1) < |Entries(blocks)| && blocks[i + 1].layout.entries != []
         else g == |Entries(blocks)|
  {
    hide TableOk, Entries, Total, KeysSorted;
    IndexSorted(crc, rank, file, blocks, index);
    SeekLands(crc, rank, file, blocks, index, target);
    TotalGrows(blocks, 0, |blocks|);
    var i := FirstAtLeast(rank, index.entries, target);
    if i < |blocks| {
      BlockSorted(crc, rank, file, blocks, index, i);
      var p := FirstAtLeast(rank, blocks[i].layout.entries, target);
      if p < |blocks[i].layout.entries| { EntryPlace(blocks, i, p); } else { TotalStep(blocks, i); }
    }
    if i + 1 < |blocks| {
      BlockSorted(crc, rank, file, blocks, index, i + 1);
      EntryPlace(blocks, i + 1, 0);
    }
  }

  /** Flat positions from entry to entry and from block to block. */
  lemma FlatStep(blocks: seq<Stored>, i: nat, p: nat)
    requires i < |blocks| && p < |blocks[i].layout.entries|
    ensures Total(blocks, i) + p < |Entries(blocks)|
    ensures p + 1 == |blocks[i].layout.entries| ==> Total(blocks, i + 1) == Total(blocks, i) + p + 1
    ensures p + 1 == |blocks[i].layout.entries| && i + 1 == |blocks| ==> Total(blocks, i) + p + 1 == |Entries(blocks)|
    ensures p + 1 < |blocks[i].layout.entries| ==> Total(blocks, i) + p + 1 < |Entries(blocks)|
    ensures i == 0 ==> Total(blocks, i) == 0
    ensures i + 1 < |blocks| && blocks[i + 1].layout.entries != [] ==> Total(blocks, i + 1) < |Entries(blocks)|
    ensures i > 0 && blocks[i - 1].layout.entries != [] ==> Total(blocks, i) > 0
  {
    hide *;
    EntryPlace(blocks, i, p);
    TotalStep(blocks, i);
    TotalGrows(blocks, i, |blocks|);
    if p + 1 < |blocks[i].layout.entries| { EntryPlace(blocks, i, p + 1); }
    if i + 1 < |blocks| && blocks[i + 1].layout.entries != [] { EntryPlace(blocks, i + 1, 0); }
    if i > 0 { TotalStep(blocks, i - 1); }
  }

  /** What the index says about a block. */
  lemma IndexEntry(crc: LogFormat.Crc, rank: Bytes -> real, file: Bytes, blocks: seq<Stored>, index: Layout, i: nat)
    requires TableOk(crc, rank, file, blocks, index) && i < |blocks|
    ensures |index.entries| == |blocks| && index.entries[i].value == HandleBytes(blocks[i].handle)
    ensures TakeHandle(HandleBytes(blocks[i].handle)) == Got(blocks[i].handle, [])
  {
    hide HandleBytes, TakeHandle, Entries, Encodes, Trailer, KeysSorted;
    assert StoredOk(crc, file, blocks[i]);
    assert Separates(rank, blocks, index.entries, i);
    HandleAlone(blocks[i].handle);
  }

  lemma SameHandle(crc: LogFormat.Crc, rank: Bytes -> real, file: Bytes, blocks: seq<Stored>, index: Layout, i: nat, j: nat)
    requires TableOk(crc, rank, file, blocks, index) && i < |blocks| && j < |blocks|
    requires HandleBytes(blocks[i].handle) == HandleBytes(blocks[j].handle)
    ensures i == j
  {
    IndexEntry(crc, rank, file, blocks, index, i);
    IndexEntry(crc, rank, file, blocks, index, j);
    hide HandleBytes, TakeHandle, StoredOk, Indexed, Entries, KeysSorted;
    assert blocks[i].handle == blocks[j].handle;
  }

  lemma IndexedReads(crc: LogFormat.Crc, rank: Bytes -> real, file: Bytes, blocks: seq<Stored>, index: Layout, i: nat, verify: bool)
    requires TableOk(crc, rank, file, blocks, index) && i < |blocks|
    ensures ReadBlock(crc, file, blocks[i].handle, verify).Some?
    ensures Encodes(ReadBlock(crc, file, blocks[i].handle, verify).value, blocks[i].layout)
  {
    hide ReadBlock, Encodes, Entries, KeysSorted, Indexed;
    assert StoredOk(crc, file, blocks[i]);
    StoredReads(crc, file, blocks[i], verify);
  }
}
