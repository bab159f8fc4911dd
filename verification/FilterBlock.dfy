/** The filter block: one filter for every 2 KB of table file, found again by a data block's offset. */
module FilterBlock {
  import opened Bloom
  import opened Coding
  import opened Keys

  const BASE_LG: nat := 11
  const BASE: nat := 2048

  /** Filter `i` of the block lies between offsets `i` and `i + 1`, and has these keys; no keys, no bytes. */
  ghost predicate FilterAt(hash: Hash, data: Bytes, offs: seq<nat>, filters: seq<seq<Bytes>>, i: nat)
    requires i < |filters| && |offs| == |filters| + 1
  {
    && offs[i] <= offs[i + 1] <= |data|
    && if filters[i] == [] then offs[i] == offs[i + 1] else IsFilter(hash, filters[i], data[offs[i]..offs[i + 1]])
  }

  ghost predicate Filters(hash: Hash, data: Bytes, offs: seq<nat>, filters: seq<seq<Bytes>>) {
    && |offs| == |filters| + 1
    && forall i :: 0 <= i < |filters| ==> FilterAt(hash, data, offs, filters, i)
  }

  /** Bytes added behind the filters leave them alone. */
  lemma MoreData(hash: Hash, data: Bytes, more: Bytes, offs: seq<nat>, filters: seq<seq<Bytes>>)
    requires Filters(hash, data, offs, filters)
    ensures Filters(hash, data + more, offs, filters)
  {
    hide IsFilter;
    forall i | 0 <= i < |filters|
      ensures FilterAt(hash, data + more, offs, filters, i)
    {
      assert FilterAt(hash, data, offs, filters, i);
      assert (data + more)[offs[i]..offs[i + 1]] == data[offs[i]..offs[i + 1]];
    }
  }

  lemma OneMoreFilter(hash: Hash, data: Bytes, filter: Bytes, offs: seq<nat>, filters: seq<seq<Bytes>>, keys: seq<Bytes>)
    requires Filters(hash, data, offs + [|data|], filters)
    requires if keys == [] then filter == [] else IsFilter(hash, keys, filter)
    ensures Filters(hash, data + filter, offs + [|data|] + [|data + filter|], filters + [keys])
  {
    hide IsFilter;
    MoreData(hash, data, filter, offs + [|data|], filters);
    var data', offs', filters' := data + filter, offs + [|data|] + [|data + filter|], filters + [keys];
    forall i | 0 <= i < |filters'|
      ensures FilterAt(hash, data', offs', filters', i)
    {
      if i < |filters| {
        assert FilterAt(hash, data', offs + [|data|], filters, i);
      } else {
        assert data'[|data|..|data'|] == filter;
      }
    }
  }

  /** Where the `i`-th flattened key ends: at the start of the next one, or at the end of all. */
  function KeyEnd(keys: Bytes, start: seq<nat>, i: nat): nat
    requires i < |start|
  {
    if i + 1 < |start| then start[i + 1] else |keys|
  }

  /** The flattened keys are the pending ones, one after the other. */
  ghost predicate Flattened(keys: Bytes, start: seq<nat>, pending: seq<Bytes>) {
    && |start| == |pending|
    && forall i :: 0 <= i < |start| ==>
         start[i] <= KeyEnd(keys, start, i) <= |keys| && keys[start[i]..KeyEnd(keys, start, i)] == pending[i]
  }

  lemma FlattenedAdd(keys: Bytes, start: seq<nat>, pending: seq<Bytes>, key: Bytes)
    requires Flattened(keys, start, pending)
    ensures Flattened(keys + key, start + [|keys|], pending + [key])
  {
    var keys', start', pending' := keys + key, start + [|keys|], pending + [key];
    forall i | 0 <= i < |start'|
      ensures start'[i] <= KeyEnd(keys', start', i) <= |keys'| && keys'[start'[i]..KeyEnd(keys', start', i)] == pending'[i]
    {
      if i < |start| {
        var end := KeyEnd(keys, start, i);
        assert KeyEnd(keys', start', i) == end;
        assert keys'[start[i]..end] == keys[start[i]..end];
      } else {
        assert keys'[|keys|..|keys'|] == key;
      }
    }
  }

  lemma NothingFlattened(keys: Bytes, start: seq<nat>, pending: seq<Bytes>)
    requires Flattened(keys, start, pending)
    ensures (|start| == 0 ==> pending == []) && |pending| == |start|
    ensures Flattened([], [], [])
  {
  }

  lemma KeyAt(keys: Bytes, start: seq<nat>, pending: seq<Bytes>, i: nat)
    requires Flattened(keys, start, pending) && i < |start|
    ensures |pending| == |start| && start[i] <= KeyEnd(keys, start, i) <= |keys| && keys[start[i]..KeyEnd(keys, start, i)] == pending[i]
  {
  }

  /** Cut the flattened keys apart; the last start is where all of them end. */
  method SplitKeys(keys: Bytes, start: seq<nat>, ghost pending: seq<Bytes>) returns (tmpKeys: seq<Bytes>)
    requires start != [] && start[|start| - 1] == |keys| && Flattened(keys, start[..|start| - 1], pending)
    ensures tmpKeys == pending
  {
    hide Flattened;
    var numKeys := |start| - 1;
    ghost var begins := start[..numKeys];
    NothingFlattened(keys, begins, pending);
    tmpKeys := [];
    for i := 0 to numKeys
      invariant tmpKeys == pending[..i]
    {
      KeyAt(keys, begins, pending, i);
      assert start[i] == begins[i] && start[i + 1] == KeyEnd(keys, begins, i);
      assert pending[..i + 1] == pending[..i] + [pending[i]];
      tmpKeys := tmpKeys + [keys[start[i]..start[i + 1]]];
    }
    assert pending[..numKeys] == pending;
  }

  class FilterBlockBuilder {
    const policy: BloomFilterPolicy
    var keys: Bytes
    var start: seq<nat>
    var result: Bytes
    var filterOffsets: seq<nat>
    ghost var filters: seq<seq<Bytes>>
    ghost var pending: seq<Bytes>

    ghost predicate Valid() reads this {
      policy.Valid() && Flattened(keys, start, pending) && Filters(policy.hash, result, filterOffsets + [|result|], filters)
    }

    constructor (policy: BloomFilterPolicy)
      requires policy.Valid()
      ensures Valid() && filters == [] && pending == [] && this.policy == policy
    {
      this.policy := policy;
      keys, start, result, filterOffsets := [], [], [], [];
      filters, pending := [], [];
    }

    /** A data block starts at this offset: the keys before it belong to earlier filters. */
    method StartBlock(blockOffset: nat)
      requires Valid() && blockOffset / BASE >= |filters|
      modifies this
      ensures Valid() && |filters| == blockOffset / BASE
      ensures pending == if blockOffset / BASE > |old(filters)| then [] else old(pending)
      ensures |old(filters)| <= |filters| && filters[..|old(filters)|] == old(filters)
      ensures |old(filters)| < |filters| ==> filters[|old(filters)|] == old(pending)
      ensures forall i :: |old(filters)| < i < |filters| ==> filters[i] == []
    {
      hide Filters;
      OffsetsAreFilters();
      var filterIndex := blockOffset / BASE;
      while filterIndex > |filterOffsets|
        invariant Valid() && |filterOffsets| == |filters| <= filterIndex
        invariant |old(filters)| <= |filters| && filters[..|old(filters)|] == old(filters)
        invariant pending == if |filters| > |old(filters)| then [] else old(pending)
        invariant |old(filters)| < |filters| ==> filters[|old(filters)|] == old(pending)
        invariant forall i :: |old(filters)| < i < |filters| ==> filters[i] == []
      {
        GenerateFilter();
      }
    }

    lemma OffsetsAreFilters()
      requires Valid()
      ensures |filterOffsets| == |filters|
    {
    }

    method AddKey(key: Bytes)
      requires Valid()
      modifies this
      ensures Valid() && filters == old(filters) && pending == old(pending) + [key]
    {
      hide Filters, Flattened;
      FlattenedAdd(keys, start, pending, key);
      start := start + [|keys|];
      keys := keys + key;
      pending := pending + [key];
    }

    /** Close the current filter, which is empty if no key was added since the last one. */
    method GenerateFilter()
      requires Valid()
      modifies this
      ensures Valid() && filters == old(filters) + [old(pending)] && pending == []
      ensures |filterOffsets| == |filters|
    {
      hide Filters, IsFilter, Flattened;
      OffsetsAreFilters();
      NothingFlattened(keys, start, pending);
      var numKeys := |start|;
      filterOffsets := filterOffsets + [|result|];
      ghost var data, offs := result, old(filterOffsets);
      if numKeys == 0 {
        OneMoreFilter(policy.hash, data, [], offs, filters, pending);
        assert data + [] == data;
      } else {
        start := start + [|keys|];
        assert start[..numKeys] == old(start);
        var tmpKeys := SplitKeys(keys, start, pending);
        result := policy.CreateFilter(tmpKeys, result);
        OneMoreFilter(policy.hash, data, result[|data|..], offs, filters, pending);
        assert result == data + result[|data|..];
        keys, start := [], [];
      }
      filters, pending := filters + [pending], [];
    }

    /** The filters, their offsets, where the offsets begin, and the encoding parameter. */
    method Finish() returns (contents: Bytes)
      requires Valid()
      modifies this
      ensures Valid() && pending == [] && (old(pending) != [] ==> filters == old(filters) + [old(pending)])
      ensures old(pending) == [] ==> filters == old(filters)
      ensures |result| <= |contents| && (|result| < TWO32 ==> IsFilterBlock(policy.hash, contents, filters))
    {
      hide Filters, IsFilterBlock;
      if start != [] {
        GenerateFilter();
      }
      OffsetsAreFilters();
      ghost var data, offs := result, filterOffsets;
      contents := result;
      if |result| < TWO32 {
        OffsetsNarrow(policy.hash, data, offs + [|data|], filters);
        assert (offs + [|data|])[..|offs|] == offs;
        var array_ := FixedOffsets(filterOffsets);
        contents := result + array_ + EncodeFixed32(|result|) + [ToByte(BASE_LG)];
        FinishedFilters(policy.hash, data, offs, filters);
      }
    }
  }

  method FixedOffsets(offs: seq<nat>) returns (b: Bytes)
    requires Narrow(offs)
    ensures b == FixedArray(offs)
  {
    hide EncodeFixed32;
    b := [];
    assert offs[0..] == offs;
    for i := 0 to |offs|
      invariant Narrow(offs[i..]) && b + FixedArray(offs[i..]) == FixedArray(offs)
    {
      FixedStep(offs[i..]);
      assert offs[i..][1..] == offs[i + 1..];
      b := b + EncodeFixed32(offs[i]);
    }
    FixedNothing(offs[|offs|..]);
  }

  lemma OffsetsNarrow(hash: Hash, data: Bytes, offs: seq<nat>, filters: seq<seq<Bytes>>)
    requires Filters(hash, data, offs, filters) && |offs| > 0 && offs[|offs| - 1] == |data| && |data| < TWO32
    ensures Narrow(offs) && Narrow(offs[..|offs| - 1])
  {
    hide IsFilter;
    forall i | 0 <= i < |offs|
      ensures offs[i] < TWO32
    {
      if i < |filters| {
        assert FilterAt(hash, data, offs, filters, i);
      }
    }
  }

  // ---------------------------------------------------------------- reading

  /** A finished filter block. */
  ghost predicate IsFilterBlock(hash: Hash, contents: Bytes, filters: seq<seq<Bytes>>) {
    exists offs: seq<nat> :: |offs| == |filters| + 1 && LaidOut(hash, contents, offs, filters)
  }

  ghost predicate LaidOut(hash: Hash, contents: Bytes, offs: seq<nat>, filters: seq<seq<Bytes>>)
    requires |offs| == |filters| + 1
  {
    var n := |filters|;
    && Filters(hash, contents, offs, filters) && Narrow(offs)
    && |contents| == offs[n] + 4 * n + 5 && ToNat(contents[|contents| - 1]) == BASE_LG
    && forall i :: 0 <= i <= n ==> DecodeFixed32(contents[offs[n] + 4 * i..offs[n] + 4 * i + 4]) == offs[i]
  }

  lemma FinishedFilters(hash: Hash, data: Bytes, offs: seq<nat>, filters: seq<seq<Bytes>>)
    requires Filters(hash, data, offs + [|data|], filters) && Narrow(offs) && |data| < TWO32
    ensures IsFilterBlock(hash, data + FixedArray(offs) + EncodeFixed32(|data|) + [ToByte(BASE_LG)], filters)
  {
    hide Filters, FixedArray, EncodeFixed32, DecodeFixed32, Narrow;
    SameLength(hash, data, offs + [|data|], filters);
    var all := offs + [|data|];
    var tail := FixedArray(offs) + EncodeFixed32(|data|) + [ToByte(BASE_LG)];
    var contents := data + FixedArray(offs) + EncodeFixed32(|data|) + [ToByte(BASE_LG)];
    assert contents == data + tail;
    MoreData(hash, data, tail, all, filters);
    FixedArrayMore(offs, |data|);
    ArrayAt(data, all);
    assert all[|filters|] == |data|;
    assert LaidOut(hash, contents, all, filters);
  }

  lemma ArrayAt(data: Bytes, all: seq<nat>)
    requires Narrow(all)
    ensures
      var contents := data + (FixedArray(all) + [ToByte(BASE_LG)]);
      forall i :: 0 <= i < |all| ==> DecodeFixed32(contents[|data| + 4 * i..|data| + 4 * i + 4]) == all[i]
  {
    hide FixedArray, EncodeFixed32, DecodeFixed32;
    var tail := FixedArray(all) + [ToByte(BASE_LG)];
    forall i | 0 <= i < |all|
      ensures DecodeFixed32((data + tail)[|data| + 4 * i..|data| + 4 * i + 4]) == all[i]
    {
      FixedArrayAt(all, i);
      FixedRoundTrip(all[i]);
      assert tail[4 * i..4 * i + 4] == FixedArray(all)[4 * i..4 * i + 4];
      Behind(data, tail, 4 * i, 4 * i + 4);
    }
  }

  lemma SameLength(hash: Hash, data: Bytes, offs: seq<nat>, filters: seq<seq<Bytes>>)
    requires Filters(hash, data, offs, filters)
    ensures |offs| == |filters| + 1
  {
  }

  lemma Behind(a: Bytes, b: Bytes, i: nat, j: nat)
    requires i <= j <= |b|
    ensures (a + b)[|a| + i..|a| + j] == b[i..j]
  {
  }

  /** What a query must answer: a key of the filter that the offset selects may match. */
  ghost predicate MustMatch(filters: seq<seq<Bytes>>, blockOffset: nat, key: Bytes) {
    blockOffset / BASE < |filters| && key in filters[blockOffset / BASE]
  }

  lemma NotNegative(a: nat, b: nat)
    requires b > 0
    ensures a / b >= 0
  {
  }

  lemma EmptyMatchesNothing(hash: Hash, key: Bytes, filter: Bytes)
    ensures filter == [] ==> !MayMatch(hash, key, filter)
  {
  }

  class FilterBlockReader {
    const policy: BloomFilterPolicy
    const contents: Bytes
    const offset: nat
    const num: nat
    const baseLg: nat

    /** A block too short or with an impossible array offset has no filters. */
    constructor (policy: BloomFilterPolicy, contents: Bytes)
      ensures this.policy == policy && this.contents == contents && Valid()
      ensures Opened()
    {
      var n := |contents|;
      var off, count, lg := 0, 0, 0;
      if n >= 5 {
        lg := ToNat(contents[n - 1]);
        var lastWord := DecodeFixed32(contents[n - 5..n - 1]);
        if lastWord <= n - 5 {
          off, count := lastWord, (n - 5 - lastWord) / 4;
        }
      }
      this.policy, this.contents, offset, num, baseLg := policy, contents, off, count, lg;
    }

    predicate Valid() { num > 0 ==> offset + 4 * num + 5 <= |contents| }

    ghost predicate Opened() {
      if |contents| >= 5 && DecodeFixed32(contents[|contents| - 5..|contents| - 1]) <= |contents| - 5 then
        && offset == DecodeFixed32(contents[|contents| - 5..|contents| - 1]) && num == (|contents| - 5 - offset) / 4
        && baseLg == ToNat(contents[|contents| - 1])
      else num == 0
    }

    /** Where the `i`-th filter begins. */
    function Start(i: nat): nat
      requires Valid() && num > 0 && i <= num
    {
      DecodeFixed32(contents[offset + i * 4..offset + i * 4 + 4])
    }

    function Index(blockOffset: nat): nat { NotNegative(blockOffset, Pow2(baseLg)); blockOffset / Pow2(baseLg) }

    /** Past the filters, or with offsets that are not in order, anything may match; an empty filter matches nothing. */
    predicate Answers(index: nat, r: bool)
      requires Valid()
    {
      if index >= num then r
      else
        var start, limit := Start(index), Start(index + 1);
        (start == limit ==> !r) && (start > limit || (limit > offset && start != limit) ==> r)
    }

    /**
     On a finished filter block, the answer of the filter that the offset selects; an offset past the filters, and
     anything unreadable, counts as a potential match.
     */
    method KeyMayMatch(blockOffset: nat, key: Bytes) returns (r: bool)
      requires Valid() && Opened()
      ensures forall offs, filters :: |offs| == |filters| + 1 && LaidOut(policy.hash, contents, offs, filters) ==>
        r == Selected(policy.hash, contents, offs, filters, blockOffset, key)
      ensures forall filters :: IsFilterBlock(policy.hash, contents, filters) && MustMatch(filters, blockOffset, key) ==> r
      ensures Answers(Index(blockOffset), r)
    {
      hide LaidOut, MayMatch, Opened, Pow2, DecodeFixed32, Selected, IsFilterBlock, MustMatch, Start, Answers, Index;
      var index := blockOffset / Pow2(baseLg);
      IndexIs(blockOffset);
      if index < num {
        InArray(index);
        var start := DecodeFixed32(contents[offset + index * 4..offset + index * 4 + 4]);
        var limit := DecodeFixed32(contents[offset + index * 4 + 4..offset + index * 4 + 8]);
        if start <= limit && limit <= offset {
          r := policy.KeyMayMatch(key, contents[start..limit]);
          EmptyMatchesNothing(policy.hash, key, contents[start..limit]);
        } else {
          r := start != limit;
        }
      } else {
        r := true;
      }
      AnswersBy(index, r);
      forall offs, filters | |offs| == |filters| + 1 && LaidOut(policy.hash, contents, offs, filters)
        ensures r == Selected(policy.hash, contents, offs, filters, blockOffset, key)
      {
        Selects(filters, offs, blockOffset, key, index);
      }
      forall filters | IsFilterBlock(policy.hash, contents, filters) && MustMatch(filters, blockOffset, key)
        ensures r
      {
        var offs := SelectedMatches(policy.hash, contents, filters, blockOffset, key);
      }
    }

    lemma IndexIs(blockOffset: nat)
      ensures Index(blockOffset) == blockOffset / Pow2(baseLg)
    {
      hide Pow2;
    }

    lemma InArray(index: nat)
      requires Valid() && index < num
      ensures offset + index * 4 + 8 <= |contents|
      ensures Start(index) == DecodeFixed32(contents[offset + index * 4..offset + index * 4 + 4])
      ensures Start(index + 1) == DecodeFixed32(contents[offset + index * 4 + 4..offset + index * 4 + 8])
    {
      hide DecodeFixed32;
      assert offset + (index + 1) * 4 == offset + index * 4 + 4;
    }

    lemma AnswersBy(index: nat, r: bool)
      requires Valid() && (index >= num ==> r)
      requires index < num ==>
        var start, limit := Start(index), Start(index + 1);
        (start == limit ==> !r) && (start > limit || (limit > offset && start != limit) ==> r)
      ensures Answers(index, r)
    {
      hide Start;
    }

    /** In a finished block the offset array is where the reader looks, and says where the filter is. */
    lemma Selects(filters: seq<seq<Bytes>>, offs: seq<nat>, blockOffset: nat, key: Bytes, index: nat)
      requires Valid() && Opened() && index == blockOffset / Pow2(baseLg)
      requires |offs| == |filters| + 1 && LaidOut(policy.hash, contents, offs, filters)
      ensures index == blockOffset / BASE && num == |filters|
      ensures index < num ==>
        var start := DecodeFixed32(contents[offset + index * 4..offset + index * 4 + 4]);
        var limit := DecodeFixed32(contents[offset + index * 4 + 4..offset + index * 4 + 8]);
        && start <= limit <= offset <= |contents|
        && Selected(policy.hash, contents, offs, filters, blockOffset, key) == MayMatch(policy.hash, key, contents[start..limit])
      ensures index >= num ==> Selected(policy.hash, contents, offs, filters, blockOffset, key)
    {
      hide DecodeFixed32, IsFilter, MayMatch;
      var n := |filters|;
      assert contents[offs[n] + 4 * n..offs[n] + 4 * n + 4] == contents[|contents| - 5..|contents| - 1];
      TwoTo11();
      if index < num {
        assert FilterAt(policy.hash, contents, offs, filters, index);
        OffsetsBelow(policy.hash, contents, offs, filters, index + 1);
      }
    }
  }

  /** The answer of the filter that a block offset selects. */
  ghost predicate Selected(hash: Hash, contents: Bytes, offs: seq<nat>, filters: seq<seq<Bytes>>, blockOffset: nat, key: Bytes)
    requires |offs| == |filters| + 1 && LaidOut(hash, contents, offs, filters)
  {
    var i := blockOffset / BASE;
    i < |filters| ==> assert FilterAt(hash, contents, offs, filters, i); MayMatch(hash, key, contents[offs[i]..offs[i + 1]])
  }

  lemma SelectedMatches(hash: Hash, contents: Bytes, filters: seq<seq<Bytes>>, blockOffset: nat, key: Bytes)
    returns (offs: seq<nat>)
    requires IsFilterBlock(hash, contents, filters) && MustMatch(filters, blockOffset, key)
    ensures |offs| == |filters| + 1 && LaidOut(hash, contents, offs, filters)
    ensures Selected(hash, contents, offs, filters, blockOffset, key)
  {
    hide IsFilter, MayMatch;
    offs :| |offs| == |filters| + 1 && LaidOut(hash, contents, offs, filters);
    var i := blockOffset / BASE;
    assert FilterAt(hash, contents, offs, filters, i);
    NoFalseNegatives(hash, filters[i], contents[offs[i]..offs[i + 1]], key);
  }

  lemma TwoTo11()
    ensures Pow2(BASE_LG) == BASE
  {
    assert Pow2(4) == 16 && Pow2(8) == 16 * Pow2(4);
  }

  lemma {:induction false} OffsetsBelow(hash: Hash, contents: Bytes, offs: seq<nat>, filters: seq<seq<Bytes>>, i: nat)
    requires Filters(hash, contents, offs, filters) && i <= |filters|
    ensures offs[i] <= offs[|filters|]
    decreases |filters| - i
  {
    hide IsFilter;
    if i < |filters| {
      assert FilterAt(hash, contents, offs, filters, i);
      OffsetsBelow(hash, contents, offs, filters, i + 1);
    }
  }
}
