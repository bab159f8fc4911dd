/** The state a running compaction keeps, and the loop that merges its inputs into output tables. */
module CompactionLoop {
  import opened Keys
  import opened Files
  import opened DropRule

  /** No file two or more levels below the compaction has `user` in its key range. */
  ghost predicate BaseLevel(levels: seq<seq<File>>, level: nat, user: UserKey) {
    forall l, f :: level + 2 <= l < |levels| && f in levels[l] ==>
      !(f.Smallest().user <= user <= f.Largest().user)
  }

  ghost function BaseKeys(levels: seq<seq<File>>, level: nat): iset<UserKey> {
    iset user | BaseLevel(levels, level, user)
  }

  class Compaction {
    const level: nat
    const levels: seq<seq<File>>      // the files of the input version
    const grandparents: seq<File>     // level + 2 files that overlap the inputs
    const maxGrandparentBytes: nat
    const levelPtrs: array<nat>       // for each level, files before it end before every key to come
    var grandparentIndex: nat
    var seenKey: bool
    var overlappedBytes: nat

    constructor (level: nat, levels: seq<seq<File>>, grandparents: seq<File>, maxGrandparentBytes: nat)
      requires level + 1 < |levels|
      requires (forall l :: 0 < l < |levels| ==> Disjoint(levels[l])) && Disjoint(grandparents)
      ensures this.level == level && this.levels == levels
      ensures this.grandparents == grandparents && this.maxGrandparentBytes == maxGrandparentBytes
      ensures Valid() && Unused() && fresh(levelPtrs)
    {
      this.level, this.levels, this.grandparents := level, levels, grandparents;
      this.maxGrandparentBytes := maxGrandparentBytes;
      levelPtrs := new nat[|levels|](_ => 0);
      grandparentIndex, seenKey, overlappedBytes := 0, false, 0;
    }

    ghost predicate Valid()
      reads this, levelPtrs
    {
      && level + 1 < |levels| == levelPtrs.Length
      && (forall l :: 0 <= l < |levels| ==> levelPtrs[l] <= |levels[l]|)
      && (forall l :: 0 < l < |levels| ==> Disjoint(levels[l]))
      && grandparentIndex <= |grandparents| && Disjoint(grandparents)
    }

    /** No key has been looked at yet. */
    ghost predicate Unused()
      requires Valid()
      reads this, levelPtrs
    {
      grandparentIndex == 0 && !seenKey && overlappedBytes == 0 && forall user :: Fed(user)
    }

    /** Every file already passed ends before `user`. */
    ghost predicate Fed(user: UserKey)
      requires Valid()
      reads this, levelPtrs
    {
      forall l, i :: 0 <= l < |levels| && 0 <= i < levelPtrs[l] ==> levels[l][i].Largest().user < user
    }

    /**
     `IsBaseLevelForKey`: the pointers only move forward, yet for keys fed in ascending order the
     answer is that of a scan of every deeper file.
     */
    method IsBaseLevelForKey(user: UserKey) returns (r: bool)
      requires Valid() && Fed(user)
      modifies levelPtrs
      ensures Valid() && Fed(user)
      ensures r <==> BaseLevel(levels, level, user)
    {
      hide Disjoint;
      for lvl := level + 2 to |levels|
        invariant Valid() && Fed(user)
        invariant forall l, f :: level + 2 <= l < lvl && f in levels[l] ==>
          !(f.Smallest().user <= user <= f.Largest().user)
      {
        var files := levels[lvl];
        while levelPtrs[lvl] < |files|
          invariant Valid() && Fed(user)
          invariant forall i :: 0 <= i < levelPtrs[lvl] ==> files[i].Largest().user < user
          decreases |files| - levelPtrs[lvl]
        {
          var f := files[levelPtrs[lvl]];
          if user <= f.Largest().user {
            if user >= f.Smallest().user {
              assert f in levels[lvl];
              return false;
            }
            break;
          }
          levelPtrs[lvl] := levelPtrs[lvl] + 1;
        }
        NotInLevel(files, levelPtrs[lvl], user);
      }
      r := true;
    }

    /** `ShouldStopBefore`: whether more grandparent bytes were passed since the last cut than are allowed. */
    method ShouldStopBefore(key: IKey) returns (r: bool)
      requires Valid()
      modifies `grandparentIndex, `seenKey, `overlappedBytes
      ensures Valid() && seenKey && Passes(grandparents, old(grandparentIndex), grandparentIndex, key)
      ensures
        var passed := if old(seenKey) then TotalFileSize(grandparents[old(grandparentIndex)..grandparentIndex]) else 0;
        var bytes := old(overlappedBytes) + passed;
        r == (bytes > maxGrandparentBytes) && overlappedBytes == if r then 0 else bytes
    {
      hide Disjoint, TotalFileSize;
      NoFiles();
      ghost var from := grandparentIndex;
      assert grandparents[from..from] == [];
      while grandparentIndex < |grandparents| && Less(grandparents[grandparentIndex].Largest(), key)
        invariant Valid() && from <= grandparentIndex && seenKey == old(seenKey)
        invariant forall i :: from <= i < grandparentIndex ==> Less(grandparents[i].Largest(), key)
        invariant overlappedBytes == old(overlappedBytes) + if seenKey then TotalFileSize(grandparents[from..grandparentIndex]) else 0
      {
        ghost var rest := grandparents[from..];
        SizeSnoc(rest, grandparentIndex - from);
        assert rest[..grandparentIndex - from] == grandparents[from..grandparentIndex];
        assert rest[..grandparentIndex - from + 1] == grandparents[from..grandparentIndex + 1];
        if seenKey {
          overlappedBytes := overlappedBytes + grandparents[grandparentIndex].size;
        }
        grandparentIndex := grandparentIndex + 1;
      }
      seenKey := true;
      if overlappedBytes > maxGrandparentBytes {
        overlappedBytes := 0;
        return true;
      }
      return false;
    }
  }

  /** The files before the pointer end before the key, and those from it on begin after it. */
  lemma NotInLevel(files: seq<File>, p: nat, user: UserKey)
    requires Disjoint(files) && p <= |files| && forall i :: 0 <= i < p ==> files[i].Largest().user < user
    requires p < |files| ==> user < files[p].Smallest().user
    ensures forall f :: f in files ==> !(f.Smallest().user <= user <= f.Largest().user)
  {
    forall i | p <= i < |files|
      ensures user < files[i].Smallest().user
    {
      if i > p {
        EntryInRange(files[p], files[p].entries[0]);
        assert Less(files[p].Largest(), files[i].Smallest());
      }
    }
  }

  lemma NoFiles()
    ensures TotalFileSize([]) == 0
  {
  }

  function Flatten(tables: seq<seq<Entry>>): seq<Entry> {
    if tables == [] then [] else Flatten(tables[..|tables| - 1]) + tables[|tables| - 1]
  }

  lemma FlattenSnoc(tables: seq<seq<Entry>>, t: seq<Entry>)
    ensures Flatten(tables + [t]) == Flatten(tables) + t
  {
    assert (tables + [t])[..|tables|] == tables;
  }

  /** In a sorted input, the entry just before decides whether a newer one hides this one. */
  lemma HiddenByPrevious(es: seq<Entry>, i: nat, smallest: nat)
    requires Sorted(es) && i < |es|
    ensures Hidden(es, i, smallest) <==>
      i > 0 && es[i - 1].ikey.user == es[i].ikey.user && es[i - 1].ikey.seqno <= smallest
  {
    if Hidden(es, i, smallest) {
      var j :| 0 <= j < i && es[j].ikey.user == es[i].ikey.user && es[j].ikey.seqno <= smallest;
      assert j < i - 1 ==> Less(es[j].ikey, es[i - 1].ikey);
      assert Less(es[i - 1].ikey, es[i].ikey);
    }
  }

  lemma KeptNone(es: seq<Entry>, smallest: nat, base: iset<UserKey>)
    ensures Flatten([]) + [] == Kept(es, 0, smallest, base)
  {
  }

  lemma UsersAscend(es: seq<Entry>, i: nat)
    requires Sorted(es) && i < |es|
    ensures forall k :: i < k < |es| ==> es[i].ikey.user <= es[k].ikey.user
  {
    forall k | i < k < |es|
      ensures es[i].ikey.user <= es[k].ikey.user
    {
      assert Less(es[i].ikey, es[k].ikey);
    }
  }

  lemma DropStep(es: seq<Entry>, i: nat, smallest: nat, base: iset<UserKey>)
    requires Sorted(es) && i < |es|
    ensures
      var e := es[i];
      var covered := i > 0 && es[i - 1].ikey.user == e.ikey.user && es[i - 1].ikey.seqno <= smallest;
      var obsolete := e.ikey.kind == Deletion && e.ikey.seqno <= smallest && e.ikey.user in base;
      Kept(es, i + 1, smallest, base) == Kept(es, i, smallest, base) + (if covered || obsolete then [] else [e])
  {
    HiddenByPrevious(es, i, smallest);
  }

  /** A table has an entry, and was below the size limit before its last one. */
  predicate CutInTime(t: seq<Entry>, fileBytes: seq<Entry> -> nat, limit: nat) {
    t != [] && (|t| > 1 ==> fileBytes(t[..|t| - 1]) < limit)
  }

  // ---------------------------------------------------------------- the grandparents an output passes

  /** The grandparents passed on the way to a key: those from the current one on that end before it. */
  ghost predicate Passes(files: seq<File>, from: nat, to: nat, key: IKey) {
    && from <= to <= |files| && (forall i :: from <= i < to ==> Less(files[i].Largest(), key))
    && (to < |files| ==> !Less(files[to].Largest(), key))
  }

  /** The files that end at or after `first` and before `last`. */
  function Between(files: seq<File>, first: IKey, last: IKey): seq<File> {
    if files == [] then []
    else
      var f := files[|files| - 1];
      Between(files[..|files| - 1], first, last) + if !Less(f.Largest(), first) && Less(f.Largest(), last) then [f] else []
  }

  /** Few bytes of `files` end at or after the first key of a table and before its last. */
  ghost predicate FewPassed(files: seq<File>, t: seq<Entry>, limit: nat) {
    t != [] && TotalFileSize(Between(files, t[0].ikey, t[|t| - 1].ikey)) <= limit
  }

  lemma {:induction false} BetweenOfRun(files: seq<File>, n: nat, i: nat, j: nat, first: IKey, last: IKey)
    requires i <= j <= |files| && n <= |files|
    requires forall k :: 0 <= k < |files| ==>
      (!Less(files[k].Largest(), first) && Less(files[k].Largest(), last) <==> i <= k < j)
    ensures Between(files[..n], first, last) == files[if i < n then i else n..if j < n then j else n]
  {
    hide Less;
    if n > 0 {
      BetweenOfRun(files, n - 1, i, j, first, last);
      assert files[..n][..n - 1] == files[..n - 1];
      if i <= n - 1 < j {
        assert files[i..n - 1] + [files[n - 1]] == files[i..n];
      }
    }
  }

  lemma BetweenIsRun(files: seq<File>, i: nat, j: nat, first: IKey, last: IKey)
    requires Disjoint(files) && i <= j && Passes(files, 0, i, first) && Passes(files, 0, j, last)
    ensures Between(files, first, last) == files[i..j]
  {
    hide Disjoint, Between;
    forall k | 0 <= k < |files|
      ensures !Less(files[k].Largest(), first) && Less(files[k].Largest(), last) <==> i <= k < j
    {
      SpanIsOrdered(files, k);
    }
    BetweenOfRun(files, |files|, i, j, first, last);
    assert files[..|files|] == files;
  }

  lemma {:induction false} SizeJoin(files: seq<File>, i: nat, j: nat, k: nat)
    requires i <= j <= k <= |files|
    ensures TotalFileSize(files[i..j]) + TotalFileSize(files[j..k]) == TotalFileSize(files[i..k])
    decreases j - i
  {
    if i == j {
      assert files[i..j] == [] && files[j..k] == files[i..k];
    } else {
      SizeJoin(files, i + 1, j, k);
      assert files[i..j] == [files[i]] + files[i + 1..j] && files[i..k] == [files[i]] + files[i + 1..k];
    }
  }

  /** The tables that ended below the size limit. */
  function EarlyCuts(outputs: seq<seq<Entry>>, fileBytes: seq<Entry> -> nat, limit: nat): nat {
    if outputs == [] then 0
    else
      EarlyCuts(outputs[..|outputs| - 1], fileBytes, limit) +
        if fileBytes(outputs[|outputs| - 1]) < limit then 1 else 0
  }

  /** Before the last table, every one below the size limit has used up more than `max` of the grandparents' bytes. */
  ghost predicate CutsPaidFor(outputs: seq<seq<Entry>>, fileBytes: seq<Entry> -> nat, limit: nat, max: nat, bytes: nat) {
    outputs != [] ==> EarlyCuts(outputs[..|outputs| - 1], fileBytes, limit) * (max + 1) <= bytes
  }

  lemma EarlySnoc(outputs: seq<seq<Entry>>, t: seq<Entry>, fileBytes: seq<Entry> -> nat, limit: nat)
    ensures EarlyCuts(outputs + [t], fileBytes, limit) ==
      EarlyCuts(outputs, fileBytes, limit) + if fileBytes(t) < limit then 1 else 0
  {
    assert (outputs + [t])[..|outputs|] == outputs;
  }

  /**
   What the loop knows of the grandparents after `key`: `index` of them end before it, those since `start` fit into
   `bytes`, and every early cut has used up more than `max`.
   */
  ghost predicate Tracks(files: seq<File>, index: nat, bytes: nat, max: nat, key: IKey, start: nat,
      builder: Option<seq<Entry>>, early: nat)
  {
    && Passes(files, 0, index, key) && bytes <= max && early * (max + 1) + bytes <= TotalFileSize(files[..index])
    && (builder.Some? ==>
          && builder.value != [] && start <= index && Passes(files, 0, start, builder.value[0].ikey)
          && TotalFileSize(files[start..index]) <= bytes)
  }

  lemma TracksFirst(files: seq<File>, index: nat, max: nat, key: IKey, start: nat)
    requires Passes(files, 0, index, key)
    ensures Tracks(files, index, 0, max, key, start, None, 0)
  {
  }

  /** One call of `ShouldStopBefore`; a stop ends the table and pays for it. */
  lemma TracksNext(files: seq<File>, from: nat, bytes: nat, max: nat, key: IKey, start: nat, builder: Option<seq<Entry>>,
      early: nat, to: nat, next: IKey)
    requires Tracks(files, from, bytes, max, key, start, builder, early) && Less(key, next) && Passes(files, from, to, next)
    ensures
      var sum := bytes + TotalFileSize(files[from..to]);
      if sum > max then Tracks(files, to, 0, max, next, start, None, early + 1) && Tracks(files, to, 0, max, next, start, None, early)
      else Tracks(files, to, sum, max, next, start, builder, early)
  {
    assert Passes(files, 0, to, next) by {
      forall i | 0 <= i < from
        ensures Less(files[i].Largest(), next)
      {
        assert Less(files[i].Largest(), key);
      }
    }
    hide Passes;
    PassesWithin(files, 0, from, key);
    PassesWithin(files, from, to, next);
    assert files[0..from] == files[..from] && files[0..to] == files[..to];
    SizeJoin(files, 0, from, to);
    if builder.Some? {
      SizeJoin(files, start, from, to);
    }
    assert (early + 1) * (max + 1) == early * (max + 1) + max + 1;
  }

  lemma PassesWithin(files: seq<File>, from: nat, to: nat, key: IKey)
    requires Passes(files, from, to, key)
    ensures from <= to <= |files|
  {
  }

  /** An entry goes into the table: what the table passes is what was counted since it began. */
  lemma TracksEntry(files: seq<File>, index: nat, bytes: nat, max: nat, e: Entry, start: nat, builder: Option<seq<Entry>>,
      early: nat)
    requires Tracks(files, index, bytes, max, e.ikey, start, builder, early) && Disjoint(files)
    ensures
      var t := (if builder.Some? then builder.value else []) + [e];
      && FewPassed(files, t, max)
      && Tracks(files, index, bytes, max, e.ikey, if builder.Some? then start else index, Some(t), early)
  {
    hide Disjoint, Passes, Between;
    PassesWithin(files, 0, index, e.ikey);
    NoFiles();
    assert files[index..index] == [];
    BetweenIsRun(files, if builder.Some? then start else index, index,
      if builder.Some? then builder.value[0].ikey else e.ikey, e.ikey);
  }

  lemma TracksDone(files: seq<File>, index: nat, bytes: nat, max: nat, key: IKey, start: nat, builder: Option<seq<Entry>>,
      early: nat)
    requires Tracks(files, index, bytes, max, key, start, builder, early)
    ensures Tracks(files, index, bytes, max, key, start, None, early)
    ensures early * (max + 1) <= TotalFileSize(files)
  {
    hide Passes;
    PassesWithin(files, 0, index, key);
    SizeJoin(files, 0, index, |files|);
    assert files[0..index] == files[..index] && files[0..|files|] == files;
  }

  lemma PaidFor(outputs: seq<seq<Entry>>, builder: Option<seq<Entry>>, fileBytes: seq<Entry> -> nat, limit: nat, max: nat,
      bytes: nat)
    requires EarlyCuts(outputs, fileBytes, limit) * (max + 1) <= bytes
    ensures CutsPaidFor(outputs + (if builder.Some? then [builder.value] else []), fileBytes, limit, max, bytes)
  {
    if builder.Some? {
      assert (outputs + [builder.value])[..|outputs|] == outputs;
    } else if outputs != [] {
      var fewer, all := EarlyCuts(outputs[..|outputs| - 1], fileBytes, limit), EarlyCuts(outputs, fileBytes, limit);
      TimesAtMost(fewer, all, max + 1);
      assert outputs + [] == outputs;
    }
  }

  lemma TimesAtMost(a: nat, b: nat, c: nat)
    requires a <= b
    ensures a * c <= b * c
  {
  }

  lemma {:induction false} NoEarlyCut(outputs: seq<seq<Entry>>, fileBytes: seq<Entry> -> nat, limit: nat, i: nat)
    requires EarlyCuts(outputs, fileBytes, limit) == 0 && i < |outputs|
    ensures fileBytes(outputs[i]) >= limit
  {
    if i < |outputs| - 1 {
      NoEarlyCut(outputs[..|outputs| - 1], fileBytes, limit, i);
    }
  }

  /** Without grandparents, only the size limit ends a table before the input does. */
  lemma FullButLast(outputs: seq<seq<Entry>>, fileBytes: seq<Entry> -> nat, limit: nat, max: nat)
    requires CutsPaidFor(outputs, fileBytes, limit, max, 0)
    ensures forall i :: 0 <= i < |outputs| - 1 ==> fileBytes(outputs[i]) >= limit
  {
    forall i | 0 <= i < |outputs| - 1
      ensures fileBytes(outputs[i]) >= limit
    {
      var before := outputs[..|outputs| - 1];
      TimesAtMost(1, max + 1, EarlyCuts(before, fileBytes, limit));
      NoEarlyCut(before, fileBytes, limit, i);
    }
  }

  lemma NoneEarly(fileBytes: seq<Entry> -> nat, limit: nat)
    ensures EarlyCuts([], fileBytes, limit) == 0
  {
  }

  lemma OneMoreEntry(t: seq<Entry>, e: Entry, fileBytes: seq<Entry> -> nat, limit: nat)
    requires t == [] || fileBytes(t) < limit
    ensures CutInTime(t + [e], fileBytes, limit)
  {
    assert (t + [e])[..|t|] == t;
  }

  /**
   The loop of `DoCompactionWork`.  `fileBytes` is the size of a table built from some entries; it
   and the grandparent count decide only where the output is cut.
   */
  method DoCompactionWork(c: Compaction, input: seq<Entry>, smallest: nat,
      fileBytes: seq<Entry> -> nat, maxOutputFileSize: nat)
    returns (outputs: seq<seq<Entry>>)
    requires c.Valid() && c.Unused()
    requires Sorted(input) && smallest < MAX_SEQUENCE
    modifies c, c.levelPtrs
    ensures Flatten(outputs) == Kept(input, |input|, smallest, BaseKeys(c.levels, c.level))
    ensures forall t :: t in outputs ==> CutInTime(t, fileBytes, maxOutputFileSize)
    ensures forall t :: t in outputs ==> FewPassed(c.grandparents, t, c.maxGrandparentBytes)
    ensures CutsPaidFor(outputs, fileBytes, maxOutputFileSize, c.maxGrandparentBytes, TotalFileSize(c.grandparents))
  {
    hide Kept, Sorted, Flatten, CutInTime, TotalFileSize, Passes, FewPassed, EarlyCuts, Tracks, CutsPaidFor, Less, Disjoint, BaseLevel;
    outputs := [];
    KeptNone(input, smallest, BaseKeys(c.levels, c.level));
    NoneEarly(fileBytes, maxOutputFileSize);
    ghost var base := BaseKeys(c.levels, c.level);
    ghost var start := 0;
    var builder: Option<seq<Entry>> := None;
    var currentUserKey: Option<UserKey> := None;
    var lastSequenceForKey := MAX_SEQUENCE;
    for i := 0 to |input|
      invariant c.Valid()
      invariant i == 0 ==> c.Unused() && builder == None && outputs == []
      invariant i > 0 ==> c.seenKey && Tracks(c.grandparents, c.grandparentIndex, c.overlappedBytes, c.maxGrandparentBytes,
                            input[i - 1].ikey, start, builder, EarlyCuts(outputs, fileBytes, maxOutputFileSize))
      invariant forall k :: i <= k < |input| ==> c.Fed(input[k].ikey.user)
      invariant i == 0 ==> currentUserKey == None
      invariant i > 0 ==> currentUserKey == Some(input[i - 1].ikey.user) && lastSequenceForKey == input[i - 1].ikey.seqno
      invariant builder.Some? ==> CutInTime(builder.value, fileBytes, maxOutputFileSize)
      invariant builder.Some? ==> FewPassed(c.grandparents, builder.value, c.maxGrandparentBytes)
      invariant builder.Some? ==> fileBytes(builder.value) < maxOutputFileSize
      invariant forall t :: t in outputs ==> CutInTime(t, fileBytes, maxOutputFileSize)
      invariant forall t :: t in outputs ==> FewPassed(c.grandparents, t, c.maxGrandparentBytes)
      invariant Flatten(outputs) + (if builder.Some? then builder.value else []) == Kept(input, i, smallest, base)
    {
      var e := input[i];
      ghost var from, bytes := c.grandparentIndex, c.overlappedBytes;
      ghost var early := EarlyCuts(outputs, fileBytes, maxOutputFileSize);
      var stop := c.ShouldStopBefore(e.ikey);
      if i == 0 {
        TracksFirst(c.grandparents, c.grandparentIndex, c.maxGrandparentBytes, e.ikey, start);
      } else {
        NextIsLater(input, i);
        TracksNext(c.grandparents, from, bytes, c.maxGrandparentBytes, input[i - 1].ikey, start, builder, early,
          c.grandparentIndex, e.ikey);
      }
      if stop && builder.Some? {
        FlattenSnoc(outputs, builder.value);
        EarlySnoc(outputs, builder.value, fileBytes, maxOutputFileSize);
        outputs, builder := outputs + [builder.value], None;
      }
      DropStep(input, i, smallest, base);
      if currentUserKey != Some(e.ikey.user) {
        currentUserKey := Some(e.ikey.user);
        lastSequenceForKey := MAX_SEQUENCE;
      }
      var drop := false;
      if lastSequenceForKey <= smallest {
        drop := true;
      } else if e.ikey.kind == Deletion && e.ikey.seqno <= smallest {
        drop := c.IsBaseLevelForKey(e.ikey.user);
      }
      lastSequenceForKey := e.ikey.seqno;
      if !drop {
        early := EarlyCuts(outputs, fileBytes, maxOutputFileSize);
        TracksEntry(c.grandparents, c.grandparentIndex, c.overlappedBytes, c.maxGrandparentBytes, e, start, builder, early);
        if builder == None {
          builder := Some([]);
          start := c.grandparentIndex;
        }
        OneMoreEntry(builder.value, e, fileBytes, maxOutputFileSize);
        builder := Some(builder.value + [e]);
        if fileBytes(builder.value) >= maxOutputFileSize {
          FlattenSnoc(outputs, builder.value);
          EarlySnoc(outputs, builder.value, fileBytes, maxOutputFileSize);
          TracksDone(c.grandparents, c.grandparentIndex, c.overlappedBytes, c.maxGrandparentBytes, e.ikey, start, builder, early);
          outputs, builder := outputs + [builder.value], None;
        }
      }
      UsersAscend(input, i);
    }
    if |input| > 0 {
      TracksDone(c.grandparents, c.grandparentIndex, c.overlappedBytes, c.maxGrandparentBytes, input[|input| - 1].ikey,
        start, builder, EarlyCuts(outputs, fileBytes, maxOutputFileSize));
    }
    PaidFor(outputs, builder, fileBytes, maxOutputFileSize, c.maxGrandparentBytes, TotalFileSize(c.grandparents));
    if builder.Some? {
      FlattenSnoc(outputs, builder.value);
      outputs := outputs + [builder.value];
    } else {
      assert outputs + [] == outputs;
    }
  }

  lemma NextIsLater(es: seq<Entry>, i: nat)
    requires Sorted(es) && 0 < i < |es|
    ensures Less(es[i - 1].ikey, es[i].ikey)
  {
  }
}
