/** A whole table file and the reader opened on it: the index, the filter, iterators and point lookups. */
module Table {
  import opened BlockFormat
  import opened BlockIter
  import opened Bloom
  import opened FilterBlock
  import opened Keys
  import opened Separators
  import opened TableFormat
  import opened TableReader
  import LogFormat

  // ---------------------------------------------------------------- a table file

  /** The filter block: the key it has in the metaindex, where it is, and the keys of each of its filters. */
  datatype Filter = Filter(key: Bytes, handle: Handle, contents: Bytes, filters: seq<seq<Bytes>>)

  datatype Parts = Parts(blocks: seq<Stored>, index: Layout, indexHandle: Handle, meta: Layout, metaHandle: Handle,
                         filter: Option<Filter>)

  /** Contents with their trailer, where the handle says. */
  ghost predicate Raw(crc: LogFormat.Crc, file: Bytes, h: Handle, contents: Bytes) {
    && h.size == |contents| && h.offset + h.size + TRAILER <= |file|
    && file[h.offset..h.offset + h.size + TRAILER] == contents + Trailer(crc, contents)
  }

  lemma RawMore(crc: LogFormat.Crc, file: Bytes, more: Bytes, h: Handle, contents: Bytes)
    requires Raw(crc, file, h, contents)
    ensures Raw(crc, file + more, h, contents)
  {
    hide Trailer;
    assert (file + more)[h.offset..h.offset + h.size + TRAILER] == file[h.offset..h.offset + h.size + TRAILER];
  }

  ghost predicate RawBlock(crc: LogFormat.Crc, file: Bytes, h: Handle, l: Layout) {
    exists contents :: Raw(crc, file, h, contents) && Encodes(contents, l)
  }

  lemma RawBlockReads(crc: LogFormat.Crc, file: Bytes, h: Handle, l: Layout, verify: bool)
    requires RawBlock(crc, file, h, l)
    ensures ReadBlock(crc, file, h, verify).Some? && Encodes(ReadBlock(crc, file, h, verify).value, l)
  {
    hide Encodes, Trailer, ReadBlock;
    var contents :| Raw(crc, file, h, contents) && Encodes(contents, l);
    ReadsBlock(crc, file, h, contents, verify);
  }

  /** Between the last key of a block and its index key there is no key that a lookup could match in a later block. */
  ghost predicate Apart(rank: Bytes -> real, part: Bytes -> Bytes, blocks: seq<Stored>, index: seq<Pair>) {
    |index| == |blocks| && forall i :: 0 <= i < |blocks| - 1 ==> SplitAt(rank, part, blocks, index, i)
  }

  ghost predicate SplitAt(rank: Bytes -> real, part: Bytes -> Bytes, blocks: seq<Stored>, index: seq<Pair>, i: nat)
    requires i < |index| && i + 1 < |blocks|
  {
    var a, b := blocks[i].layout.entries, blocks[i + 1].layout.entries;
    a != [] && b != [] && Split(rank, part, a[|a| - 1].key, index[i].key, b[0].key)
  }

  /** Every key's part is in the filter that its block's offset selects. */
  ghost predicate Covered(part: Bytes -> Bytes, blocks: seq<Stored>, filters: seq<seq<Bytes>>) {
    forall i, e :: 0 <= i < |blocks| && e in blocks[i].layout.entries ==>
      MustMatch(filters, blocks[i].handle.offset, part(e.key))
  }

  ghost predicate FilterOk(crc: LogFormat.Crc, hash: Hash, part: Bytes -> Bytes, file: Bytes, blocks: seq<Stored>, f: Filter) {
    HandleOk(f.handle) && Raw(crc, file, f.handle, f.contents)
    && IsFilterBlock(hash, f.contents, f.filters) && Covered(part, blocks, f.filters)
  }

  ghost predicate IsTable(crc: LogFormat.Crc, hash: Hash, rank: Bytes -> real, part: Bytes -> Bytes, file: Bytes, t: Parts) {
    && TableOk(crc, rank, file, t.blocks, t.index) && Apart(rank, part, t.blocks, t.index.entries)
    && HandleOk(t.indexHandle) && HandleOk(t.metaHandle)
    && RawBlock(crc, file, t.indexHandle, t.index) && RawBlock(crc, file, t.metaHandle, t.meta)
    && |file| >= FOOTER && file[|file| - FOOTER..] == FooterBytes(t.metaHandle, t.indexHandle)
    && match t.filter
       case None => t.meta.entries == []
       case Some(f) =>
         t.meta.entries == [Pair(f.key, HandleBytes(f.handle))] && FilterOk(crc, hash, part, file, t.blocks, f)
  }

  // ---------------------------------------------------------------- lookups

  /** The entry a point lookup is after: the first at or past the target, if it matches the target in part. */
  ghost function Wanted(rank: Bytes -> real, part: Bytes -> Bytes, entries: seq<Pair>, target: Bytes): Option<Pair> {
    var g := FirstAtLeast(rank, entries, target);
    if g < |entries| && part(entries[g].key) == part(target) then Some(entries[g]) else None
  }

  /** A lookup that stays in the block its index key selects misses nothing that matches. */
  lemma WantedInBlock(crc: LogFormat.Crc, rank: Bytes -> real, part: Bytes -> Bytes, file: Bytes, blocks: seq<Stored>,
      index: Layout, target: Bytes)
    requires TableOk(crc, rank, file, blocks, index) && Apart(rank, part, blocks, index.entries)
    ensures
      var i := FirstAtLeast(rank, index.entries, target);
      var p, g := SoughtIn(rank, blocks, i, target), FirstAtLeast(rank, Entries(blocks), target);
      if i < |blocks| && p < |blocks[i].layout.entries|
      then
        && g < |Entries(blocks)| && Entries(blocks)[g] == blocks[i].layout.entries[p]
        && (Wanted(rank, part, Entries(blocks), target).Some? ==> Wanted(rank, part, Entries(blocks), target) == Some(Entries(blocks)[g]))
      else Wanted(rank, part, Entries(blocks), target) == None
  {
    hide *;
    SoughtPlace(crc, rank, file, blocks, index, target);
    var i := FirstAtLeast(rank, index.entries, target);
    if i < |blocks| {
      var p := FirstAtLeast(rank, blocks[i].layout.entries, target);
      if p < |blocks[i].layout.entries| {
        EntryPlace(blocks, i, p);
        IfWanted(rank, part, Entries(blocks), target);
      } else {
        BetweenBlocks(crc, rank, part, file, blocks, index, target, i);
      }
    } else {
      NothingWanted(rank, part, Entries(blocks), target);
    }
  }

  /** Every entry is what a lookup of its own key is after. */
  lemma EveryKeyIsWanted(rank: Bytes -> real, part: Bytes -> Bytes, entries: seq<Pair>, i: nat)
    requires KeysSorted(rank, entries) && i < |entries|
    ensures Wanted(rank, part, entries, entries[i].key) == Some(entries[i])
  {
    FirstIsUnique(rank, entries, entries[i].key, i);
  }

  lemma IfWanted(rank: Bytes -> real, part: Bytes -> Bytes, entries: seq<Pair>, target: Bytes)
    ensures Wanted(rank, part, entries, target).Some? ==>
      FirstAtLeast(rank, entries, target) < |entries|
      && Wanted(rank, part, entries, target) == Some(entries[FirstAtLeast(rank, entries, target)])
  {
  }

  lemma NothingWanted(rank: Bytes -> real, part: Bytes -> Bytes, entries: seq<Pair>, target: Bytes)
    requires FirstAtLeast(rank, entries, target) == |entries|
    ensures Wanted(rank, part, entries, target) == None
  {
  }

  lemma BetweenBlocks(crc: LogFormat.Crc, rank: Bytes -> real, part: Bytes -> Bytes, file: Bytes, blocks: seq<Stored>,
      index: Layout, target: Bytes, i: nat)
    requires TableOk(crc, rank, file, blocks, index) && Apart(rank, part, blocks, index.entries)
    requires i == FirstAtLeast(rank, index.entries, target) < |blocks|
    requires FirstAtLeast(rank, blocks[i].layout.entries, target) == |blocks[i].layout.entries|
    ensures Wanted(rank, part, Entries(blocks), target) == None
  {
    hide TableOk, Entries, KeysSorted, Split, Total;
    SoughtPlace(crc, rank, file, blocks, index, target);
    IndexCount(crc, rank, file, blocks, index);
    if i + 1 < |blocks| {
      EntryPlace(blocks, i + 1, 0);
      assert SplitAt(rank, part, blocks, index.entries, i);
      var a, b := blocks[i].layout.entries, blocks[i + 1].layout.entries;
      assert rank(a[|a| - 1].key) < rank(target);
      Splits(rank, part, a[|a| - 1].key, index.entries[i].key, b[0].key, target);
    }
  }

  lemma Splits(rank: Bytes -> real, part: Bytes -> Bytes, a: Bytes, s: Bytes, b: Bytes, t: Bytes)
    requires Split(rank, part, a, s, b) && rank(a) < rank(t) <= rank(s)
    ensures part(t) != part(b)
  {
  }

  // ---------------------------------------------------------------- the reader

  /** A filter reader on a filter block that covers the data blocks. */
  ghost predicate Serves(filter: FilterBlockReader, part: Bytes -> Bytes, blocks: seq<Stored>, filters: seq<seq<Bytes>>) {
    filter.Valid() && filter.Opened() && IsFilterBlock(filter.policy.hash, filter.contents, filters) && Covered(part, blocks, filters)
  }

  class Table {
    const crc: LogFormat.Crc
    const rank: Bytes -> real
    const part: Bytes -> Bytes
    const file: Bytes
    const indexBlock: Bytes
    const filter: FilterBlockReader?
    ghost const t: Parts

    ghost predicate Valid() {
      && TableOk(crc, rank, file, t.blocks, t.index) && Apart(rank, part, t.blocks, t.index.entries)
      && Encodes(indexBlock, t.index)
      && (filter != null ==> t.filter.Some? && Serves(filter, part, t.blocks, t.filter.value.filters))
    }

    constructor (crc: LogFormat.Crc, rank: Bytes -> real, part: Bytes -> Bytes, file: Bytes, indexBlock: Bytes,
        filter: FilterBlockReader?, ghost t: Parts)
      ensures this.crc == crc && this.rank == rank && this.part == part && this.file == file
      ensures this.indexBlock == indexBlock && this.filter == filter && this.t == t
    {
      this.crc, this.rank, this.part, this.file, this.indexBlock, this.filter, this.t := crc, rank, part, file, indexBlock, filter, t;
    }

    /** An iterator over all entries, not yet positioned. */
    method NewIterator(verify: bool) returns (it: TwoLevelIterator)
      requires Valid()
      ensures fresh(it) && it.Stands(|Entries(t.blocks)|) && it.blocks == t.blocks && it.rank == rank
    {
      it := new TwoLevelIterator(crc, rank, file, verify, indexBlock, t.blocks, t.index);
    }

    /**
     Deliver the entry that a scan would find, if it matches the target; the filter only saves reading the block.
     `looked` says whether a data block was read.
     */
    method InternalGet(k: Bytes, verify: bool) returns (r: Option<Pair>, looked: bool)
      requires Valid()
      ensures looked ==> FirstAtLeast(rank, t.index.entries, k) < |t.blocks|
      ensures FirstAtLeast(rank, t.index.entries, k) < |t.blocks| ==> if filter == null then looked else
        forall offs, filters :: |offs| == |filters| + 1 && LaidOut(filter.policy.hash, filter.contents, offs, filters) ==>
          looked == Selected(filter.policy.hash, filter.contents, offs, filters,
                      t.blocks[FirstAtLeast(rank, t.index.entries, k)].handle.offset, part(k))
      ensures !looked ==> r == None
      ensures Wanted(rank, part, Entries(t.blocks), k).Some? ==> r == Wanted(rank, part, Entries(t.blocks), k)
      ensures r.Some? ==>
        var g := FirstAtLeast(rank, Entries(t.blocks), k);
        g < |Entries(t.blocks)| && r.value == Entries(t.blocks)[g]
    {
      hide TableOk, Apart, Encodes, Entries, KeysSorted, Serves, IsFilterBlock, MustMatch, Wanted, Iter.Valid,
        TakeHandle, HandleBytes, LaidOut, Selected;
      ghost var blocks, index := t.blocks, t.index;
      SoughtPlace(crc, rank, file, blocks, index, k);
      WantedInBlock(crc, rank, part, file, blocks, index, k);
      IndexCount(crc, rank, file, blocks, index);
      r, looked := None, false;
      var iiter := new Iter(rank, indexBlock, index);
      iiter.Seek(k);
      iiter.WhereValid();
      if iiter.current < iiter.restarts {
        ghost var i := iiter.pos;
        IndexEntry(crc, rank, file, blocks, index, i);
        var handleValue := iiter.Value();
        var handle := TakeHandle(handleValue);
        var mayMatch := true;
        if filter != null && handle.Got? {
          ServesParts(filter, part, blocks, t.filter.value.filters);
          mayMatch := filter.KeyMayMatch(handle.value.offset, part(k));
        }
        if !mayMatch {
          Rejected(i, k);
        } else {
          looked := true;
          r := SeekInBlock(handle.value, k, verify, i);
        }
      }
    }

    /** The first entry of a block at or past the key. */
    method SeekInBlock(handle: Handle, k: Bytes, verify: bool, ghost i: nat) returns (r: Option<Pair>)
      requires Valid() && i < |t.blocks| && handle == t.blocks[i].handle
      ensures
        var entries, p := t.blocks[i].layout.entries, SoughtIn(rank, t.blocks, i, k);
        r == if p < |entries| then Some(entries[p]) else None
    {
      hide TableOk, Apart, Encodes, Serves, Iter.Valid;
      IndexedReads(crc, rank, file, t.blocks, t.index, i, verify);
      BlockSorted(crc, rank, file, t.blocks, t.index, i);
      r := None;
      var contents := ReadBlock(crc, file, handle, verify);
      var blockIter := new Iter(rank, contents.value, t.blocks[i].layout);
      blockIter.Seek(k);
      blockIter.WhereValid();
      if blockIter.current < blockIter.restarts {
        blockIter.WhatKey();
        var value := blockIter.Value();
        r := Some(Pair(blockIter.key, value));
      }
    }

    /** The filter rejects only keys whose part no entry of the block has. */
    lemma Rejected(i: nat, k: Bytes)
      requires Valid() && filter != null && i < |t.blocks| && i == FirstAtLeast(rank, t.index.entries, k)
      requires !MustMatch(t.filter.value.filters, t.blocks[i].handle.offset, part(k))
      ensures Wanted(rank, part, Entries(t.blocks), k) == None
    {
      hide TableOk, Apart, Encodes, Entries, KeysSorted, IsFilterBlock, MustMatch, FilterBlockReader.Opened;
      WantedInBlock(crc, rank, part, file, t.blocks, t.index, k);
      var p := SoughtIn(rank, t.blocks, i, k);
      if p < |t.blocks[i].layout.entries| {
        assert t.blocks[i].layout.entries[p] in t.blocks[i].layout.entries;
      }
    }
  }

  lemma ServesParts(filter: FilterBlockReader, part: Bytes -> Bytes, blocks: seq<Stored>, filters: seq<seq<Bytes>>)
    requires Serves(filter, part, blocks, filters)
    ensures filter.Valid() && filter.Opened() && IsFilterBlock(filter.policy.hash, filter.contents, filters)
  {
  }

  // ---------------------------------------------------------------- opening

  /** The checks on the way to the index block: the file's length, the footer, and the block itself. */
  predicate Readable(crc: LogFormat.Crc, file: Bytes, paranoid: bool) {
    && |file| >= FOOTER && TakeFooter(file[|file| - FOOTER..]).Some?
    && ReadBlock(crc, file, TakeFooter(file[|file| - FOOTER..]).value.1, paranoid).Some?
  }

  lemma TableIsReadable(crc: LogFormat.Crc, hash: Hash, rank: Bytes -> real, part: Bytes -> Bytes, file: Bytes, t: Parts, paranoid: bool)
    requires IsTable(crc, hash, rank, part, file, t)
    ensures Readable(crc, file, paranoid) && TakeFooter(file[|file| - FOOTER..]) == Some((t.metaHandle, t.indexHandle))
  {
    hide TableOk, Apart, Encodes, FooterBytes, TakeFooter, RawBlock, FilterOk, HandleBytes;
    FooterRoundTrip(t.metaHandle, t.indexHandle);
    RawBlockReads(crc, file, t.indexHandle, t.index, paranoid);
  }

  /**
   Open a table, with the policy whose filter the metaindex may name.  A file that fails the checks is refused;
   one that passes them is supposed to be a table.
   */
  method Open(crc: LogFormat.Crc, rank: Bytes -> real, part: Bytes -> Bytes, file: Bytes, paranoid: bool,
      policy: BloomFilterPolicy?, filterKey: Bytes, ghost hash: Hash, ghost t: Parts) returns (table: Table?)
    requires Readable(crc, file, paranoid) ==> IsTable(crc, hash, rank, part, file, t)
    requires policy != null && t.filter.Some? && t.filter.value.key == filterKey ==> policy.hash == hash
    ensures table != null <==> Readable(crc, file, paranoid)
    ensures table != null ==> fresh(table) && table.Valid() && table.t == t && table.rank == rank && table.part == part
    ensures table != null && policy != null && t.filter.Some? && t.filter.value.key == filterKey ==> table.filter != null
  {
    hide TableOk, Apart, Encodes, FooterBytes, TakeFooter, RawBlock, FilterOk, HandleBytes, ReadBlock;
    if |file| < FOOTER { return null; }
    var footer := TakeFooter(file[|file| - FOOTER..]);
    if footer.None? { return null; }
    var contents := ReadBlock(crc, file, footer.value.1, paranoid);
    if contents.None? { return null; }
    TableIsReadable(crc, hash, rank, part, file, t, paranoid);
    RawBlockReads(crc, file, t.indexHandle, t.index, paranoid);
    var filter: FilterBlockReader? := null;
    if policy != null {
      filter := ReadMeta(crc, rank, part, file, paranoid, policy, filterKey, footer.value.0, hash, t);
    }
    table := new Table(crc, rank, part, file, contents.value, filter, t);
    TableParts(crc, hash, rank, part, file, t);
  }

  lemma TableParts(crc: LogFormat.Crc, hash: Hash, rank: Bytes -> real, part: Bytes -> Bytes, file: Bytes, t: Parts)
    requires IsTable(crc, hash, rank, part, file, t)
    ensures TableOk(crc, rank, file, t.blocks, t.index) && Apart(rank, part, t.blocks, t.index.entries)
  {
  }

  /** Find the policy's filter through the metaindex block; no filter is not an error. */
  method ReadMeta(crc: LogFormat.Crc, rank: Bytes -> real, part: Bytes -> Bytes, file: Bytes, paranoid: bool,
      policy: BloomFilterPolicy, filterKey: Bytes, metaHandle: Handle, ghost hash: Hash, ghost t: Parts)
    returns (filter: FilterBlockReader?)
    requires IsTable(crc, hash, rank, part, file, t) && metaHandle == t.metaHandle
    requires t.filter.Some? && t.filter.value.key == filterKey ==> policy.hash == hash
    ensures t.filter.Some? && t.filter.value.key == filterKey ==> filter != null
    ensures filter != null ==> t.filter.Some? && Serves(filter, part, t.blocks, t.filter.value.filters)
  {
    hide TableOk, Apart, Encodes, FooterBytes, TakeFooter, RawBlock, HandleBytes, ReadBlock, IsFilterBlock, Covered,
      FilterBlockReader.Opened, Raw;
    filter := null;
    RawBlockReads(crc, file, t.metaHandle, t.meta, paranoid);
    var contents := ReadBlock(crc, file, metaHandle, paranoid);
    var byteRank := (k: Bytes) => Rank(k);
    var iter := new Iter(byteRank, contents.value, t.meta);
    iter.Seek(filterKey);
    iter.WhereValid();
    if iter.current < iter.restarts && iter.key == filterKey {
      var v := iter.Value();
      HandleAlone(t.filter.value.handle);
      var filterHandle := TakeHandle(v);
      RawReads(crc, file, filterHandle.value, t.filter.value.contents, paranoid);
      var block := ReadBlock(crc, file, filterHandle.value, paranoid);
      filter := new FilterBlockReader(policy, block.value);
    }
  }

  lemma RawReads(crc: LogFormat.Crc, file: Bytes, h: Handle, contents: Bytes, verify: bool)
    requires Raw(crc, file, h, contents)
    ensures ReadBlock(crc, file, h, verify) == Some(contents)
  {
    hide ReadBlock, Trailer;
    ReadsBlock(crc, file, h, contents, verify);
  }
}
