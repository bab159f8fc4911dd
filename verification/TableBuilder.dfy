/** Writing a table: data blocks, an index of shortened keys, filters, and the footer. */
module TableBuilder {
  import opened BlockBuilder
  import opened BlockFormat
  import opened BlockIter
  import opened Bloom
  import opened Coding
  import opened FilterBlock
  import opened Keys
  import opened Separators
  import opened Table
  import opened TableFormat
  import LogFormat

  // ---------------------------------------------------------------- what has been written so far

  /** First key behind block `i`: of the next block, or of the data not yet in a block. */
  function NextKey(blocks: seq<Stored>, data: seq<Pair>, i: nat): Bytes {
    var rest := if i + 1 < |blocks| then blocks[i + 1].layout.entries else data;
    if rest == [] then [] else rest[0].key
  }

  /** The index entry of a block, and what lies behind it. */
  ghost predicate IndexedAt(rank: Bytes -> real, part: Bytes -> Bytes, blocks: seq<Stored>, index: seq<Pair>, data: seq<Pair>, i: nat)
    requires i < |blocks| && i < |index|
  {
    var es := blocks[i].layout.entries;
    && Separates(rank, blocks, index, i) && (forall e :: e in data ==> rank(index[i].key) < rank(e.key))
    && es != [] && Split(rank, part, es[|es| - 1].key, index[i].key, NextKey(blocks, data, i))
  }

  /** The fields of a builder: written blocks, index entries for all of them but a pending one, and the data block. */
  ghost predicate Built(crc: LogFormat.Crc, rank: Bytes -> real, part: Bytes -> Bytes, file: Bytes, blocks: seq<Stored>,
      index: seq<Pair>, data: seq<Pair>, lastKey: Bytes) {
    && (forall i :: 0 <= i < |blocks| ==> StoredOk(crc, file, blocks[i])) && Ascending(blocks)
    && |index| + (if blocks != [] && data == [] then 1 else 0) == |blocks|
    && (forall i :: 0 <= i < |index| ==> IndexedAt(rank, part, blocks, index, data, i))
    && KeysSorted(rank, Entries(blocks) + data)
    && (var all := Entries(blocks) + data; all != [] ==> lastKey == all[|all| - 1].key)
  }

  lemma AllNonEmpty(crc: LogFormat.Crc, rank: Bytes -> real, part: Bytes -> Bytes, file: Bytes, blocks: seq<Stored>,
      index: seq<Pair>, data: seq<Pair>, lastKey: Bytes)
    requires Built(crc, rank, part, file, blocks, index, data, lastKey)
    ensures blocks != [] ==> blocks[|blocks| - 1].layout.entries != [] && Entries(blocks) != []
    ensures blocks != [] ==>
      var es := blocks[|blocks| - 1].layout.entries;
      Entries(blocks)[|Entries(blocks)| - 1] == es[|es| - 1]
    ensures |index| == |blocks| || (|index| == |blocks| - 1 && data == [])
    ensures Entries(blocks) + data != [] ==> lastKey == (Entries(blocks) + data)[|Entries(blocks) + data| - 1].key
    ensures KeysSorted(rank, Entries(blocks) + data)
  {
    hide Indexed, KeysSorted, IndexedAt, Ascending;
    if blocks != [] {
      assert StoredOk(crc, file, blocks[|blocks| - 1]);
    }
  }

  lemma LastEntries(blocks: seq<Stored>)
    requires blocks != []
    ensures forall e :: e in blocks[|blocks| - 1].layout.entries ==> e in Entries(blocks)
  {
  }

  lemma SortedMore(rank: Bytes -> real, es: seq<Pair>, e: Pair)
    requires KeysSorted(rank, es) && (es != [] ==> rank(es[|es| - 1].key) < rank(e.key))
    ensures KeysSorted(rank, es + [e])
    ensures forall x :: x in es ==> rank(x.key) < rank(e.key)
  {
    forall x | x in es
      ensures rank(x.key) < rank(e.key)
    {
      var i :| 0 <= i < |es| && es[i] == x;
    }
  }

  /** Another key of the same data block, or the very first one. */
  lemma AddsKey(crc: LogFormat.Crc, rank: Bytes -> real, part: Bytes -> Bytes, file: Bytes, blocks: seq<Stored>,
      index: seq<Pair>, data: seq<Pair>, lastKey: Bytes, e: Pair)
    requires Built(crc, rank, part, file, blocks, index, data, lastKey) && (data != [] || blocks == [])
    requires Entries(blocks) + data != [] ==> rank(lastKey) < rank(e.key)
    ensures Built(crc, rank, part, file, blocks, index, data + [e], e.key)
  {
    hide Separates, Split, KeysSorted, StoredOk, Ascending, Entries;
    AllNonEmpty(crc, rank, part, file, blocks, index, data, lastKey);
    SortedMore(rank, Entries(blocks) + data, e);
    assert Entries(blocks) + (data + [e]) == Entries(blocks) + data + [e];
    forall i | 0 <= i < |index|
      ensures IndexedAt(rank, part, blocks, index, data + [e], i)
    {
      assert IndexedAt(rank, part, blocks, index, data, i);
      assert data[0] in data && data[0] in Entries(blocks) + data;
    }
  }

  /** The first key of a new data block: the pending index entry separates it from the block before. */
  lemma AddsFirst(crc: LogFormat.Crc, rank: Bytes -> real, part: Bytes -> Bytes, separator: (Bytes, Bytes) -> Bytes,
      file: Bytes, blocks: seq<Stored>, index: seq<Pair>, lastKey: Bytes, e: Pair)
    requires Built(crc, rank, part, file, blocks, index, [], lastKey) && blocks != [] && rank(lastKey) < rank(e.key)
    requires
      var s := separator(lastKey, e.key);
      rank(lastKey) <= rank(s) < rank(e.key) && Split(rank, part, lastKey, s, e.key)
    ensures
      var entry := Pair(separator(lastKey, e.key), HandleBytes(blocks[|blocks| - 1].handle));
      Built(crc, rank, part, file, blocks, index + [entry], [e], e.key)
  {
    hide Split, KeysSorted, StoredOk, Ascending, Entries, HandleBytes;
    AllNonEmpty(crc, rank, part, file, blocks, index, [], lastKey);
    assert Entries(blocks) + [] == Entries(blocks);
    SortedMore(rank, Entries(blocks), e);
    var n := |blocks| - 1;
    LastEntries(blocks);
    var entry := Pair(separator(lastKey, e.key), HandleBytes(blocks[n].handle));
    forall i | 0 <= i < |index + [entry]|
      ensures IndexedAt(rank, part, blocks, index + [entry], [e], i)
    {
      if i < n {
        assert IndexedAt(rank, part, blocks, index, [], i);
        OldEntryStill(rank, part, blocks, index, entry, e, i);
      } else {
        LastAtMost(crc, rank, part, file, blocks, index, lastKey);
      }
    }
  }

  lemma OldEntryStill(rank: Bytes -> real, part: Bytes -> Bytes, blocks: seq<Stored>, index: seq<Pair>, entry: Pair, e: Pair, i: nat)
    requires i + 1 < |blocks| && i < |index| && IndexedAt(rank, part, blocks, index, [], i)
    requires
      var es := blocks[|blocks| - 1].layout.entries;
      es != [] && rank(es[0].key) < rank(e.key)
    ensures IndexedAt(rank, part, blocks, index + [entry], [e], i)
  {
    hide Split;
    var es := blocks[|blocks| - 1].layout.entries;
    assert es[0] in es;
    assert rank(index[i].key) < rank(es[0].key);
    assert NextKey(blocks, [e], i) == NextKey(blocks, [], i);
  }

  /** The last key of the last block is the last key added, so the largest of the block. */
  lemma LastAtMost(crc: LogFormat.Crc, rank: Bytes -> real, part: Bytes -> Bytes, file: Bytes, blocks: seq<Stored>,
      index: seq<Pair>, lastKey: Bytes)
    requires Built(crc, rank, part, file, blocks, index, [], lastKey) && blocks != []
    ensures
      var es := blocks[|blocks| - 1].layout.entries;
      es != [] && es[|es| - 1].key == lastKey && forall e :: e in es ==> rank(e.key) <= rank(lastKey)
  {
    hide IndexedAt, StoredOk, Ascending;
    AllNonEmpty(crc, rank, part, file, blocks, index, [], lastKey);
    var all := Entries(blocks);
    assert all + [] == all;
    var es := blocks[|blocks| - 1].layout.entries;
    forall e | e in es
      ensures rank(e.key) <= rank(lastKey)
    {
      var j :| 0 <= j < |es| && es[j] == e;
      assert all[|all| - |es| + j] == e;
    }
  }

  /** Writing out the data block. */
  lemma FlushesBlock(crc: LogFormat.Crc, rank: Bytes -> real, part: Bytes -> Bytes, file: Bytes, more: Bytes, blocks: seq<Stored>,
      index: seq<Pair>, lastKey: Bytes, b: Stored)
    requires Built(crc, rank, part, file, blocks, index, b.layout.entries, lastKey)
    requires StoredOk(crc, file + more, b) && b.handle.offset == |file|
    ensures Built(crc, rank, part, file + more, blocks + [b], index, [], lastKey)
  {
    hide Split, KeysSorted, StoredOk, HandleBytes;
    StoredNonEmpty(crc, file + more, b);
    var data, blocks' := b.layout.entries, blocks + [b];
    assert blocks'[..|blocks|] == blocks;
    assert Entries(blocks') + [] == Entries(blocks) + data;
    forall i | 0 <= i < |blocks'|
      ensures StoredOk(crc, file + more, blocks'[i])
      ensures i < |blocks| ==> blocks[i].handle.offset < b.handle.offset
    {
      if i < |blocks| { StoredMore(crc, file, more, blocks[i]); StoredBelow(crc, file, blocks[i]); }
    }
    forall i | 0 <= i < |index|
      ensures IndexedAt(rank, part, blocks', index, [], i)
    {
      assert IndexedAt(rank, part, blocks, index, data, i);
    }
  }

  lemma StoredNonEmpty(crc: LogFormat.Crc, file: Bytes, b: Stored)
    requires StoredOk(crc, file, b)
    ensures b.layout.entries != []
  {
  }

  lemma StoredBelow(crc: LogFormat.Crc, file: Bytes, b: Stored)
    requires StoredOk(crc, file, b)
    ensures b.handle.offset < |file|
  {
  }

  /** With the last index entry the written blocks are a table. */
  lemma BuiltIsTable(crc: LogFormat.Crc, rank: Bytes -> real, part: Bytes -> Bytes, file: Bytes, blocks: seq<Stored>,
      index: seq<Pair>, lastKey: Bytes, l: Layout)
    requires Built(crc, rank, part, file, blocks, index, [], lastKey)
    requires if blocks == [] then l.entries == index else
      exists s :: rank(lastKey) <= rank(s) && l.entries == index + [Pair(s, HandleBytes(blocks[|blocks| - 1].handle))]
    ensures TableOk(crc, rank, file, blocks, l) && Apart(rank, part, blocks, l.entries)
  {
    hide Split, KeysSorted, StoredOk, HandleBytes, Entries;
    assert Entries(blocks) + [] == Entries(blocks);
    forall i | 0 <= i < |l.entries|
      ensures Separates(rank, blocks, l.entries, i)
      ensures i < |blocks| - 1 ==> SplitAt(rank, part, blocks, l.entries, i)
    {
      if i < |index| {
        assert IndexedAt(rank, part, blocks, index, [], i);
        StoredNonEmpty(crc, file, blocks[i + 1]);
      } else {
        LastAtMost(crc, rank, part, file, blocks, index, lastKey);
      }
    }
  }

  // ---------------------------------------------------------------- the filter so far

  /** The keys of the filter with this number, while the last one is still being collected. */
  ghost predicate InFilter(filters: seq<seq<Bytes>>, pending: seq<Bytes>, i: nat, key: Bytes) {
    i <= |filters| && if i < |filters| then key in filters[i] else key in pending
  }

  ghost predicate Filtered(part: Bytes -> Bytes, blocks: seq<Stored>, data: seq<Pair>, filters: seq<seq<Bytes>>,
      pending: seq<Bytes>, offset: nat) {
    && |filters| == offset / BASE
    && (forall i, e :: 0 <= i < |blocks| && e in blocks[i].layout.entries ==>
          InFilter(filters, pending, blocks[i].handle.offset / BASE, part(e.key)))
    && (forall e :: e in data ==> part(e.key) in pending)
  }

  lemma FilterAdds(part: Bytes -> Bytes, blocks: seq<Stored>, data: seq<Pair>, filters: seq<seq<Bytes>>,
      pending: seq<Bytes>, offset: nat, e: Pair)
    requires Filtered(part, blocks, data, filters, pending, offset)
    ensures Filtered(part, blocks, data + [e], filters, pending + [part(e.key)], offset)
  {
  }

  /** Starting the next block behind a written one. */
  lemma FilterMovesOn(part: Bytes -> Bytes, blocks: seq<Stored>, filters: seq<seq<Bytes>>, pending: seq<Bytes>, b: Stored,
      filters': seq<seq<Bytes>>, pending': seq<Bytes>, offset': nat)
    requires Filtered(part, blocks, b.layout.entries, filters, pending, b.handle.offset) && b.handle.offset <= offset'
    requires |filters| <= |filters'| == offset' / BASE && filters'[..|filters|] == filters
    requires |filters| < |filters'| ==> filters'[|filters|] == pending
    requires |filters| == |filters'| ==> pending' == pending
    ensures Filtered(part, blocks + [b], [], filters', pending', offset')
  {
    var blocks' := blocks + [b];
    forall i, e | 0 <= i < |blocks'| && e in blocks'[i].layout.entries
      ensures InFilter(filters', pending', blocks'[i].handle.offset / BASE, part(e.key))
    {
      var k := blocks'[i].handle.offset / BASE;
      assert InFilter(filters, pending, k, part(e.key));
      if k < |filters| {
        assert filters'[k] == filters[k];
      }
    }
  }

  /** After the last filter is generated every key is in the filter of its block's offset. */
  lemma FilterFinishes(part: Bytes -> Bytes, blocks: seq<Stored>, filters: seq<seq<Bytes>>, pending: seq<Bytes>, offset: nat)
    requires Filtered(part, blocks, [], filters, pending, offset)
    ensures Covered(part, blocks, if pending == [] then filters else filters + [pending])
  {
    var all := if pending == [] then filters else filters + [pending];
    forall i, e | 0 <= i < |blocks| && e in blocks[i].layout.entries
      ensures MustMatch(all, blocks[i].handle.offset, part(e.key))
    {
      assert InFilter(filters, pending, blocks[i].handle.offset / BASE, part(e.key));
    }
  }

  // ---------------------------------------------------------------- the builder

  lemma StoredNew(crc: LogFormat.Crc, file: Bytes, contents: Bytes, l: Layout)
    requires Encodes(contents, l) && l.entries != [] && |file| + |contents| < TWO64
    ensures StoredOk(crc, file + contents + Trailer(crc, contents), Stored(Handle(|file|, |contents|), l))
  {
    hide Encodes, Trailer;
    RawNew(crc, file, contents);
    var all := file + contents + Trailer(crc, contents);
    var h := Handle(|file|, |contents|);
    assert all[h.offset..h.offset + h.size] == contents;
    assert all[h.offset + h.size..h.offset + h.size + TRAILER] == Trailer(crc, contents);
  }

  lemma RawNew(crc: LogFormat.Crc, file: Bytes, contents: Bytes)
    ensures Raw(crc, file + contents + Trailer(crc, contents), Handle(|file|, |contents|), contents)
  {
    hide Trailer;
    var all := file + contents + Trailer(crc, contents);
    assert all[|file|..|file| + |contents| + TRAILER] == contents + Trailer(crc, contents);
  }

  lemma OffsetMoves(n: nat, size: nat)
    ensures (n % TWO64 + size + TRAILER) % TWO64 == (n + size + TRAILER) % TWO64 && size % TWO64 < TWO64 && n % TWO64 < TWO64
    ensures n + size + TRAILER < TWO64 ==> n % TWO64 == n && size % TWO64 == size
  {
    ModAdd(n, size + TRAILER, TWO64);
  }

  method StartFilter(policy: BloomFilterPolicy) returns (fb: FilterBlockBuilder)
    requires policy.Valid()
    ensures fresh(fb) && fb.Valid() && fb.policy == policy && fb.filters == [] && fb.pending == []
  {
    fb := new FilterBlockBuilder(policy);
    hide FilterBlockBuilder.Valid;
    fb.StartBlock(0);
  }

  /** The data blocks are cut no earlier than at the block size. */
  ghost predicate BlocksFull(blocks: seq<Stored>, blockSize: nat) {
    forall i :: 0 <= i < |blocks| ==> blocks[i].handle.size >= blockSize
  }

  ghost predicate OneBlockMore(before: seq<Stored>, after: seq<Stored>) { before <= after && |after| <= |before| + 1 }

  class TableBuilder {
    const crc: LogFormat.Crc
    const rank: Bytes -> real
    const part: Bytes -> Bytes
    const separator: (Bytes, Bytes) -> Bytes
    const successor: Bytes -> Bytes
    const blockSize: nat
    const interval: nat
    const filterKey: Bytes
    const dataBlock: Builder
    const indexBlock: Builder
    const filterBlock: FilterBlockBuilder?
    ghost const hash: Hash
    var file: Bytes
    var offset: nat
    var lastKey: Bytes
    var numEntries: nat
    var closed: bool
    var pendingIndexEntry: bool
    var pendingHandle: Handle
    ghost var blocks: seq<Stored>

    /** Everything added so far. */
    ghost function Added(): seq<Pair>
      reads `blocks, dataBlock
    {
      Entries(blocks) + dataBlock.layout.entries
    }

    ghost predicate Parts_()
      reads dataBlock, indexBlock
    {
      && interval >= 1 && dataBlock != indexBlock && dataBlock.Valid() && !dataBlock.finished
      && indexBlock.Valid() && !indexBlock.finished
      && IsComparator(rank, part, separator, successor)
    }

    ghost predicate FilterState()
      reads `offset, `blocks, dataBlock, filterBlock
    {
      filterBlock != null ==>
        && filterBlock.Valid() && filterBlock.policy.hash == hash
        && Filtered(part, blocks, dataBlock.layout.entries, filterBlock.filters, filterBlock.pending, offset)
    }

    ghost predicate Valid()
      reads this, dataBlock, indexBlock, filterBlock
    {
      && Parts_() && FilterState()
      && offset == |file| && |lastKey| < TWO32 && numEntries == |Added()|
      && pendingIndexEntry == (blocks != [] && dataBlock.layout.entries == [])
      && (pendingIndexEntry ==> pendingHandle == blocks[|blocks| - 1].handle && HandleOk(pendingHandle))
      && Built(crc, rank, part, file, blocks, indexBlock.layout.entries, dataBlock.layout.entries, lastKey)
    }

    /** Bytes written or held in blocks, and of the key that may go to the index. */
    function Weight(): nat
      reads `file, `lastKey, dataBlock, indexBlock
    {
      |file| + dataBlock.CurrentSizeEstimate() + indexBlock.CurrentSizeEstimate() + |lastKey|
    }

    /** The file stays below 4 GB with this much more. */
    predicate Fits(more: nat)
      reads `file, `lastKey, dataBlock, indexBlock
    {
      Weight() + more + 200 < TWO32
    }

    constructor (crc: LogFormat.Crc, rank: Bytes -> real, part: Bytes -> Bytes, separator: (Bytes, Bytes) -> Bytes,
        successor: Bytes -> Bytes, blockSize: nat, interval: nat, policy: BloomFilterPolicy?, filterKey: Bytes,
        ghost hash: Hash)
      requires interval >= 1 && IsComparator(rank, part, separator, successor) && (policy != null ==> policy.Valid() && policy.hash == hash)
      ensures Valid() && !closed && Added() == [] && this.rank == rank && this.part == part && Weight() == 16 && lastKey == []
      ensures fresh(dataBlock) && fresh(indexBlock) && (filterBlock != null ==> fresh(filterBlock))
      ensures (filterBlock != null) == (policy != null) && this.filterKey == filterKey && this.hash == hash && this.crc == crc
      ensures this.separator == separator && this.successor == successor && this.blockSize == blockSize && blocks == []
      ensures dataBlock.interval == interval && indexBlock.interval == 1
    {
      hide *;
      this.crc, this.rank, this.part, this.separator, this.successor := crc, rank, part, separator, successor;
      this.blockSize, this.interval, this.filterKey := blockSize, interval, filterKey;
      dataBlock := new Builder(interval);
      indexBlock := new Builder(1);
      var fb: FilterBlockBuilder? := null;
      if policy != null {
        fb := StartFilter(policy);
      }
      filterBlock := fb;
      this.hash := hash;
      file, offset, lastKey, numEntries, closed, pendingIndexEntry, pendingHandle := [], 0, [], 0, false, false, Handle(0, 0);
      blocks := [];
      new;
      StartsValid();
    }

    lemma StartsValid()
      requires interval >= 1 && dataBlock != indexBlock && IsComparator(rank, part, separator, successor)
      requires dataBlock.Valid() && !dataBlock.finished && dataBlock.layout.entries == [] && dataBlock.CurrentSizeEstimate() == 8
      requires indexBlock.Valid() && !indexBlock.finished && indexBlock.layout.entries == [] && indexBlock.CurrentSizeEstimate() == 8
      requires filterBlock != null ==>
        filterBlock.Valid() && filterBlock.policy.hash == hash && filterBlock.filters == [] && filterBlock.pending == []
      requires file == [] && offset == 0 && lastKey == [] && numEntries == 0 && !pendingIndexEntry && blocks == []
      ensures Valid() && Added() == [] && Weight() == 16
    {
      hide IsComparator, Built, Filtered, Builder.Valid, FilterBlockBuilder.Valid, Builder.CurrentSizeEstimate;
      NothingBuilt(crc, rank, part);
    }

    /** Append contents and trailer.  Offsets and sizes are 64 bits wide. */
    method WriteRawBlock(contents: Bytes) returns (handle: Handle)
      requires offset == |file| % TWO64
      modifies `file, `offset
      ensures file == old(file) + contents + Trailer(crc, contents) && offset == |file| % TWO64
      ensures HandleOk(handle)
      ensures |file| < TWO64 ==> handle == Handle(|old(file)|, |contents|) && Raw(crc, file, handle, contents)
    {
      hide Raw;
      RawNew(crc, file, contents);
      OffsetMoves(|file|, |contents|);
      handle := Handle(offset, |contents| % TWO64);
      file := file + contents;
      var trailer := [0];
      var sum := crc(0, contents);
      trailer := trailer + EncodeFixed32(LogFormat.Mask(sum));
      file := file + trailer;
      offset := (offset + |contents| + TRAILER) % TWO64;
    }

    /** Finish a block, write it, and start it afresh. */
    method WriteBlock(block: Builder) returns (handle: Handle, ghost contents: Bytes)
      requires offset == |file| % TWO64 && block.Valid() && !block.finished && block.CurrentSizeEstimate() < TWO32
      modifies `file, `offset, block
      ensures file == old(file) + contents + Trailer(crc, contents) && offset == |file| % TWO64
      ensures HandleOk(handle)
      ensures |file| < TWO64 ==> handle == Handle(|old(file)|, |contents|) && Raw(crc, file, handle, contents)
      ensures Encodes(contents, old(block.layout)) && |contents| == old(block.CurrentSizeEstimate())
      ensures block.Valid() && !block.finished && block.layout.entries == [] && block.CurrentSizeEstimate() == 8
    {
      hide Builder.Valid, Encodes, Raw, Trailer;
      BuilderInterval(block);
      var raw := block.Finish();
      contents := raw;
      handle := WriteRawBlock(raw);
      block.Reset();
    }

    /** Write out the data block, if it has anything. */
    method Flush()
      requires Valid() && !closed && Fits(0)
      modifies this, dataBlock, filterBlock
      ensures Valid() && !closed && Added() == old(Added()) && dataBlock.layout.entries == []
      ensures lastKey == old(lastKey) && Weight() <= old(Weight()) + 13
      ensures dataBlock.CurrentSizeEstimate() <= old(dataBlock.CurrentSizeEstimate()) + 8
      ensures blocks == old(blocks) + if old(dataBlock.layout.entries) == [] then [] else
        [Stored(Handle(|old(file)|, old(dataBlock.CurrentSizeEstimate())), old(dataBlock.layout))]
    {
      hide Built, Builder.Valid, FilterBlockBuilder.Valid, IsComparator, Filtered, Encodes, StoredOk, Raw, Trailer, Entries;
      BuilderEmpty(dataBlock);
      if dataBlock.Empty() { return; }
      ghost var l, f0 := dataBlock.layout, file;
      ghost var contents;
      pendingHandle, contents := WriteBlock(dataBlock);
      ghost var b := Stored(pendingHandle, l);
      StoredNew(crc, f0, contents, l);
      assert file == f0 + (contents + Trailer(crc, contents));
      FlushesBlock(crc, rank, part, f0, contents + Trailer(crc, contents), blocks, indexBlock.layout.entries, lastKey, b);
      OneMore(blocks, b);
      pendingIndexEntry := true;
      if filterBlock != null {
        ghost var filters, pending := filterBlock.filters, filterBlock.pending;
        FilterCount(part, blocks, l.entries, filters, pending, |f0|, offset);
        filterBlock.StartBlock(offset);
        FilterMovesOn(part, blocks, filters, pending, b, filterBlock.filters, filterBlock.pending, offset);
      }
      blocks := blocks + [b];
    }

    /** The index entry of the last written block, with a key that separates it from what follows. */
    method AddIndexEntry(key: Bytes)
      requires indexBlock.Valid() && !indexBlock.finished && |key| < TWO32 && HandleOk(pendingHandle)
      modifies `lastKey, `pendingIndexEntry, indexBlock
      ensures indexBlock.Valid() && !indexBlock.finished && !pendingIndexEntry && lastKey == key
      ensures indexBlock.layout.entries == old(indexBlock.layout.entries) + [Pair(key, HandleBytes(pendingHandle))]
      ensures indexBlock.CurrentSizeEstimate() <= old(indexBlock.CurrentSizeEstimate()) + |key| + 39
    {
      hide Builder.Valid;
      lastKey := key;
      HandleSize(pendingHandle);
      var handleEncoding := HandleBytes(pendingHandle);
      indexBlock.Add(lastKey, handleEncoding);
      pendingIndexEntry := false;
    }

    /** Add a key after all others, and write out the data block when it is full. */
    method Add(key: Bytes, value: Bytes)
      requires Valid() && !closed && Fits(2 * |key| + |value| + 60) && (numEntries > 0 ==> rank(lastKey) < rank(key))
      modifies this, dataBlock, indexBlock, filterBlock
      ensures Valid() && !closed && Added() == old(Added()) + [Pair(key, value)] && lastKey == key
      ensures Weight() <= old(Weight()) + 2 * |key| + |value| + 71
      ensures dataBlock.layout.entries == [] || dataBlock.CurrentSizeEstimate() < blockSize
      ensures BlocksFull(old(blocks), blockSize) ==> BlocksFull(blocks, blockSize)
    {
      hide Valid, Added, BlocksFull;
      AddPair(key, value);
      var estimatedBlockSize := dataBlock.CurrentSizeEstimate();
      if estimatedBlockSize >= blockSize {
        OneMoreFull(blocks, Stored(Handle(|file|, estimatedBlockSize), dataBlock.layout), blockSize);
        Flush();
      }
    }

    /** The pending index entry first, then the filter, then the data block. */
    method AddPair(key: Bytes, value: Bytes)
      requires Valid() && !closed && Fits(2 * |key| + |value| + 60) && (numEntries > 0 ==> rank(lastKey) < rank(key))
      modifies this, dataBlock, indexBlock, filterBlock
      ensures Valid() && !closed && Added() == old(Added()) + [Pair(key, value)] && lastKey == key
      ensures Weight() <= old(Weight()) + 2 * |key| + |value| + 58
      ensures blocks == old(blocks) && dataBlock.layout.entries != []
    {
      hide Built, Builder.Valid, FilterBlockBuilder.Valid, IsComparator, Filtered, Entries, HandleBytes;
      ghost var index, data, e, last := indexBlock.layout.entries, dataBlock.layout.entries, Pair(key, value), lastKey;
      BuilderEmpty(dataBlock);
      AllNonEmpty(crc, rank, part, file, blocks, index, data, lastKey);
      if pendingIndexEntry {
        Separated(rank, part, separator, successor, lastKey, key);
        AddsFirst(crc, rank, part, separator, file, blocks, index, lastKey, e);
        AddIndexEntry(separator(lastKey, key));
        assert data + [e] == [e];
      } else {
        AddsKey(crc, rank, part, file, blocks, index, data, lastKey, e);
      }
      AddToBlock(key, value);
      assert Entries(blocks) + (data + [e]) == Entries(blocks) + data + [e];
    }

    /** The filter and the data block get the key. */
    method AddToBlock(key: Bytes, value: Bytes)
      requires dataBlock.Valid() && !dataBlock.finished && FilterState() && |key| < TWO32 && |value| < TWO32
      modifies `lastKey, `numEntries, dataBlock, filterBlock
      ensures dataBlock.Valid() && !dataBlock.finished && FilterState() && lastKey == key && numEntries == old(numEntries) + 1
      ensures dataBlock.layout.entries == old(dataBlock.layout.entries) + [Pair(key, value)]
      ensures dataBlock.CurrentSizeEstimate() <= old(dataBlock.CurrentSizeEstimate()) + |key| + |value| + 19
    {
      hide Builder.Valid, FilterBlockBuilder.Valid, Filtered;
      ghost var data, e := dataBlock.layout.entries, Pair(key, value);
      if filterBlock != null {
        FilterAdds(part, blocks, data, filterBlock.filters, filterBlock.pending, offset, e);
        filterBlock.AddKey(part(key));
      }
      lastKey := key;
      numEntries := numEntries + 1;
      dataBlock.Add(key, value);
    }

    /** Write out the last data block, and then all that says where things are. */
    method Finish() returns (ghost t: Parts)
      requires Valid() && !closed && Fits(2 * |lastKey| + |filterKey| + 200)
      modifies this, dataBlock, indexBlock, filterBlock
      ensures closed && Entries(t.blocks) == old(Added())
      ensures t.filter.Some? <==> filterBlock != null
      ensures t.filter.Some? ==> t.filter.value.key == filterKey
      ensures |file| < TWO32 ==> IsTable(crc, hash, rank, part, file, t) && offset == |file|
      ensures OneBlockMore(old(blocks), t.blocks)
    {
      hide Parts_, FilterState, Built, IsTable, Entries, Builder.Valid;
      Flush();
      closed := true;
      t := WriteParts();
    }

    /** The last filter, the metaindex that names the filter block, the index, and the footer. */
    method WriteParts() returns (ghost t: Parts)
      requires Valid() && dataBlock.layout.entries == [] && Fits(2 * |lastKey| + |filterKey| + 187)
      modifies `file, `offset, `lastKey, `pendingIndexEntry, indexBlock, filterBlock
      ensures t.blocks == blocks
      ensures t.filter.Some? <==> filterBlock != null
      ensures t.filter.Some? ==> t.filter.value.key == filterKey
      ensures |file| < TWO32 ==> IsTable(crc, hash, rank, part, file, t) && offset == |file|
    {
      hide Built, Builder.Valid, FilterBlockBuilder.Valid, IsComparator, Filtered, Entries, HandleBytes, Encodes, Raw,
        Trailer, IsFilterBlock, Covered, FooterBytes, IsTable;
      ghost var f0 := file;
      ghost var filter;
      var handleEncoding: Bytes := [];
      handleEncoding, filter := WriteFilter();
      ghost var f1 := file;
      var metaindexHandle, meta := WriteMetaindex(handleEncoding);
      ghost var f2, index, last := file, indexBlock.layout.entries, lastKey;
      var indexHandle;
      ghost var l, contents;
      indexHandle, l, contents := WriteIndex();
      ghost var f3 := file;
      t := Parts(blocks, l, indexHandle, meta, metaindexHandle, filter);
      if |file| + FOOTER < TWO32 {
        Assembles(crc, hash, rank, part, f0, index, last, f1, f2, f3, contents, t);
      }
      WriteFooter(metaindexHandle, indexHandle);
    }

    method WriteFooter(meta: Handle, index: Handle)
      requires HandleOk(meta) && HandleOk(index) && offset == |file| % TWO64
      modifies `file, `offset
      ensures file == old(file) + FooterBytes(meta, index) && (|file| < TWO32 ==> offset == |file|)
    {
      hide FooterBytes;
      var footer := FooterBytes(meta, index);
      FinalOffset(|file|, |footer|, offset);
      file := file + footer;
      offset := (offset + |footer|) % TWO64;
    }

    /** The index block, with the last block's entry if that is still pending. */
    method WriteIndex() returns (handle: Handle, ghost l: Layout, ghost contents: Bytes)
      requires Parts_() && offset == |file| % TWO64 && |lastKey| < TWO32
      requires indexBlock.CurrentSizeEstimate() + |lastKey| + 39 < TWO32
      requires pendingIndexEntry ==> HandleOk(pendingHandle)
      modifies `file, `offset, `lastKey, `pendingIndexEntry, indexBlock
      ensures old(file) <= file && offset == |file| % TWO64 && HandleOk(handle) && Encodes(contents, l)
      ensures |file| < TWO64 ==> Raw(crc, file, handle, contents)
      ensures l.entries == old(indexBlock.layout.entries)
        + if old(pendingIndexEntry) then [Pair(successor(old(lastKey)), HandleBytes(old(pendingHandle)))] else []
      ensures rank(old(lastKey)) <= rank(successor(old(lastKey)))
    {
      hide Builder.Valid, IsComparator, HandleBytes, Encodes, Raw, Trailer;
      Succeeds(rank, part, separator, successor, lastKey);
      if pendingIndexEntry {
        AddIndexEntry(successor(lastKey));
      }
      l := indexBlock.layout;
      handle, contents := WriteBlock(indexBlock);
    }

    /** The filter block, if there is a policy: its handle's encoding. */
    method WriteFilter() returns (handleEncoding: Bytes, ghost filter: Option<Filter>)
      requires FilterState() && dataBlock.layout.entries == [] && offset == |file| && |file| < TWO32
      modifies `file, `offset, filterBlock
      ensures old(file) <= file && offset == |file| % TWO64 && |handleEncoding| <= 20
      ensures filter.Some? <==> filterBlock != null
      ensures filter.Some? ==> filter.value.key == filterKey && handleEncoding == HandleBytes(filter.value.handle)
      ensures filter.Some? && |file| < TWO32 ==> FilterOk(crc, hash, part, file, blocks, filter.value)
    {
      hide FilterBlockBuilder.Valid, Filtered, HandleBytes, Raw, Trailer, IsFilterBlock, Covered;
      handleEncoding, filter := [], None;
      if filterBlock != null {
        ghost var filters, pending := filterBlock.filters, filterBlock.pending;
        FilterFinishes(part, blocks, filters, pending, offset);
        var contents := filterBlock.Finish();
        var handle := WriteRawBlock(contents);
        HandleSize(handle);
        handleEncoding := HandleBytes(handle);
        filter := Some(Filter(filterKey, handle, contents, filterBlock.filters));
      }
    }

    /** The metaindex block: the filter's handle under its key, or nothing. */
    method WriteMetaindex(handleEncoding: Bytes) returns (handle: Handle, ghost meta: Layout)
      requires offset == |file| % TWO64 && |handleEncoding| <= 20 && |filterKey| + 200 < TWO32 && interval >= 1
      modifies `file, `offset
      ensures old(file) <= file && offset == |file| % TWO64 && HandleOk(handle)
      ensures meta.entries == if filterBlock != null then [Pair(filterKey, handleEncoding)] else []
      ensures |file| < TWO64 ==> RawBlock(crc, file, handle, meta)
    {
      hide Builder.Valid, Encodes, Raw, Trailer;
      var metaIndexBlock := new Builder(interval);
      if filterBlock != null {
        metaIndexBlock.Add(filterKey, handleEncoding);
      }
      meta := metaIndexBlock.layout;
      ghost var contents;
      handle, contents := WriteBlock(metaIndexBlock);
    }
  }

  lemma RawPrefix(crc: LogFormat.Crc, f: Bytes, g: Bytes, h: Handle, contents: Bytes)
    requires f <= g && Raw(crc, f, h, contents)
    ensures Raw(crc, g, h, contents)
  {
    hide Raw;
    RawMore(crc, f, g[|f|..], h, contents);
    assert f + g[|f|..] == g;
  }

  lemma RawBlockPrefix(crc: LogFormat.Crc, f: Bytes, g: Bytes, h: Handle, l: Layout)
    requires f <= g && RawBlock(crc, f, h, l)
    ensures RawBlock(crc, g, h, l)
  {
    hide Raw, Encodes;
    var contents :| Raw(crc, f, h, contents) && Encodes(contents, l);
    RawPrefix(crc, f, g, h, contents);
  }

  lemma FilterPrefix(crc: LogFormat.Crc, hash: Hash, part: Bytes -> Bytes, f: Bytes, g: Bytes, blocks: seq<Stored>, filter: Filter)
    requires f <= g && FilterOk(crc, hash, part, f, blocks, filter)
    ensures FilterOk(crc, hash, part, g, blocks, filter)
  {
    hide Raw, IsFilterBlock, Covered;
    RawPrefix(crc, f, g, filter.handle, filter.contents);
  }

  lemma BuiltPrefix(crc: LogFormat.Crc, rank: Bytes -> real, part: Bytes -> Bytes, f: Bytes, g: Bytes, blocks: seq<Stored>,
      index: seq<Pair>, lastKey: Bytes)
    requires f <= g && Built(crc, rank, part, f, blocks, index, [], lastKey)
    ensures Built(crc, rank, part, g, blocks, index, [], lastKey)
  {
    hide StoredOk, Ascending, IndexedAt, KeysSorted, Entries;
    assert f + g[|f|..] == g;
    forall i | 0 <= i < |blocks|
      ensures StoredOk(crc, g, blocks[i])
    {
      StoredMore(crc, f, g[|f|..], blocks[i]);
    }
  }

  /** The pieces of a finished file make a table. */
  lemma Assembles(crc: LogFormat.Crc, hash: Hash, rank: Bytes -> real, part: Bytes -> Bytes, f0: Bytes, index: seq<Pair>,
      lastKey: Bytes, f1: Bytes, f2: Bytes, f3: Bytes, contents: Bytes, t: Parts)
    requires f0 <= f1 && f1 <= f2 && f2 <= f3 && Built(crc, rank, part, f0, t.blocks, index, [], lastKey)
    requires HandleOk(t.indexHandle) && HandleOk(t.metaHandle)
    requires Raw(crc, f3, t.indexHandle, contents) && Encodes(contents, t.index) && RawBlock(crc, f2, t.metaHandle, t.meta)
    requires if t.blocks == [] then t.index.entries == index else
      exists s :: rank(lastKey) <= rank(s) && t.index.entries == index + [Pair(s, HandleBytes(t.blocks[|t.blocks| - 1].handle))]
    requires match t.filter
      case None => t.meta.entries == []
      case Some(f) => t.meta.entries == [Pair(f.key, HandleBytes(f.handle))] && FilterOk(crc, hash, part, f1, t.blocks, f)
    ensures IsTable(crc, hash, rank, part, f3 + FooterBytes(t.metaHandle, t.indexHandle), t)
  {
    hide Built, Raw, Encodes, RawBlock, FilterOk, FooterBytes, HandleBytes, TableOk, Apart;
    var footer := FooterBytes(t.metaHandle, t.indexHandle);
    var g := f3 + footer;
    assert g[|g| - FOOTER..] == footer;
    BuiltPrefix(crc, rank, part, f0, g, t.blocks, index, lastKey);
    BuiltIsTable(crc, rank, part, g, t.blocks, index, lastKey, t.index);
    RawPrefix(crc, f3, g, t.indexHandle, contents);
    AsRawBlock(crc, g, t.indexHandle, contents, t.index);
    RawBlockPrefix(crc, f2, g, t.metaHandle, t.meta);
    if t.filter.Some? {
      FilterPrefix(crc, hash, part, f1, g, t.blocks, t.filter.value);
    }
  }

  lemma AsRawBlock(crc: LogFormat.Crc, file: Bytes, h: Handle, contents: Bytes, l: Layout)
    requires Raw(crc, file, h, contents) && Encodes(contents, l)
    ensures RawBlock(crc, file, h, l)
  {
  }

  lemma NothingBuilt(crc: LogFormat.Crc, rank: Bytes -> real, part: Bytes -> Bytes)
    ensures Built(crc, rank, part, [], [], [], [], []) && Filtered(part, [], [], [], [], 0) && Entries([]) == []
  {
  }

  lemma BuilderInterval(block: Builder)
    requires block.Valid()
    ensures block.interval >= 1
  {
  }

  lemma BuilderEmpty(block: Builder)
    requires block.Valid() && !block.finished
    ensures block.Empty() <==> block.layout.entries == []
  {
    block.EmptyMeans();
  }

  lemma OneMore(blocks: seq<Stored>, b: Stored)
    ensures Entries(blocks + [b]) + [] == Entries(blocks) + b.layout.entries
  {
    assert (blocks + [b])[..|blocks|] == blocks;
  }

  lemma FilterCount(part: Bytes -> Bytes, blocks: seq<Stored>, data: seq<Pair>, filters: seq<seq<Bytes>>, pending: seq<Bytes>,
      offset: nat, offset': nat)
    requires Filtered(part, blocks, data, filters, pending, offset) && offset <= offset'
    ensures |filters| == offset / BASE <= offset' / BASE
  {
  }

  lemma Succeeds(rank: Bytes -> real, part: Bytes -> Bytes, separator: (Bytes, Bytes) -> Bytes, successor: Bytes -> Bytes, a: Bytes)
    requires IsComparator(rank, part, separator, successor)
    ensures rank(a) <= rank(successor(a)) && |successor(a)| <= |a|
  {
  }

  lemma Separated(rank: Bytes -> real, part: Bytes -> Bytes, separator: (Bytes, Bytes) -> Bytes, successor: Bytes -> Bytes,
      a: Bytes, b: Bytes)
    requires IsComparator(rank, part, separator, successor) && rank(a) < rank(b)
    ensures
      var s := separator(a, b);
      rank(a) <= rank(s) < rank(b) && |s| <= |a| && Split(rank, part, a, s, b)
  {
  }

  // ---------------------------------------------------------------- a table of given entries

  function Size(entries: seq<Pair>): nat {
    if entries == [] then 0
    else var e := entries[|entries| - 1]; Size(entries[..|entries| - 1]) + 4 * |e.key| + |e.value| + 80
  }

  lemma {:induction false} SizeGrows(entries: seq<Pair>, i: nat)
    requires i < |entries|
    ensures Size(entries[..i]) + 4 * |entries[i].key| + |entries[i].value| + 80 == Size(entries[..i + 1]) <= Size(entries)
    decreases |entries| - i
  {
    assert entries[..i + 1][..i] == entries[..i];
    if i + 1 < |entries| {
      SizeGrows(entries, i + 1);
    } else {
      assert entries[..i + 1] == entries;
    }
  }

  datatype Written = Written(file: Bytes, size: nat, smallest: Bytes, largest: Bytes)

  /** Write sorted entries to a file, unless there are none: every one of them is in the table, and nothing else. */
  method BuildTable(crc: LogFormat.Crc, rank: Bytes -> real, part: Bytes -> Bytes, separator: (Bytes, Bytes) -> Bytes,
      successor: Bytes -> Bytes, blockSize: nat, interval: nat, policy: BloomFilterPolicy?, filterKey: Bytes,
      ghost hash: Hash, entries: seq<Pair>) returns (r: Option<Written>, ghost t: Parts)
    requires interval >= 1 && IsComparator(rank, part, separator, successor)
    requires policy != null ==> policy.Valid() && policy.hash == hash
    requires KeysSorted(rank, entries) && Size(entries) + |filterKey| + 1000 < TWO32
    ensures r.Some? <==> entries != []
    ensures r.Some? ==> r.value.smallest == entries[0].key && r.value.largest == entries[|entries| - 1].key
    ensures r.Some? ==> Entries(t.blocks) == entries && (t.filter.Some? <==> policy != null)
    ensures r.Some? && t.filter.Some? ==> t.filter.value.key == filterKey
    ensures r.Some? && |r.value.file| < TWO32 ==> IsTable(crc, hash, rank, part, r.value.file, t) && r.value.size == |r.value.file|
    ensures r.Some? && t.blocks != [] ==> BlocksFull(t.blocks[..|t.blocks| - 1], blockSize)
  {
    hide IsComparator, TableBuilder.Valid, IsTable, TableBuilder.Added, Size, KeysSorted, Entries, BlocksFull;
    r, t := None, Parts([], Layout([], [], [], []), Handle(0, 0), Layout([], [], [], []), Handle(0, 0), None);
    if |entries| > 0 {
      var builder := new TableBuilder(crc, rank, part, separator, successor, blockSize, interval, policy, filterKey, hash);
      CountedState(builder);
      NoBlocks(blockSize);
      var smallest, largest := entries[0].key, [];
      for i := 0 to |entries|
        invariant builder.Valid() && !builder.closed && builder.Added() == entries[..i]
        invariant largest == builder.lastKey && (i > 0 ==> largest == entries[i - 1].key)
        invariant builder.numEntries == i && builder.blockSize == blockSize && BlocksFull(builder.blocks, blockSize)
        invariant builder.Weight() + 2 * |builder.lastKey| <= 16 + Size(entries[..i])
        invariant fresh(builder) && fresh(builder.dataBlock) && fresh(builder.indexBlock)
        invariant builder.filterBlock != null ==> fresh(builder.filterBlock)
      {
        SizeGrows(entries, i);
        InOrder(rank, entries, i);
        largest := entries[i].key;
        builder.Add(entries[i].key, entries[i].value);
        assert entries[..i + 1] == entries[..i] + [entries[i]];
        CountedState(builder);
      }
      assert entries[..|entries|] == entries;
      ghost var blocks := builder.blocks;
      t := builder.Finish();
      AllButLast(blocks, t.blocks, blockSize);
      r := Some(Written(builder.file, builder.offset, smallest, largest));
    }
  }

  lemma FinalOffset(n: nat, m: nat, offset: nat)
    requires offset == n % TWO64
    ensures n + m < TWO32 ==> (offset + m) % TWO64 == n + m
  {
  }

  lemma NoBlocks(blockSize: nat)
    ensures BlocksFull([], blockSize)
  {
  }

  lemma AllButLast(before: seq<Stored>, after: seq<Stored>, blockSize: nat)
    requires BlocksFull(before, blockSize) && OneBlockMore(before, after)
    ensures after != [] ==> BlocksFull(after[..|after| - 1], blockSize)
  {
  }

  lemma OneMoreFull(blocks: seq<Stored>, b: Stored, blockSize: nat)
    requires b.handle.size >= blockSize
    ensures BlocksFull(blocks, blockSize) ==> BlocksFull(blocks + [b], blockSize)
  {
  }

  lemma InOrder(rank: Bytes -> real, entries: seq<Pair>, i: nat)
    requires KeysSorted(rank, entries) && i < |entries|
    ensures i > 0 ==> rank(entries[i - 1].key) < rank(entries[i].key)
  {
  }

  lemma CountedState(builder: TableBuilder)
    requires builder.Valid()
    ensures builder.numEntries == |builder.Added()|
  {
  }
}
