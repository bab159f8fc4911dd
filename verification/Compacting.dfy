/** A whole compaction: merge the inputs, drop what is obsolete, cut, and build the new version. */
module Compacting {
  import opened Keys
  import opened Files
  import opened Reads
  import opened DropRule
  import opened VersionBuilder
  import opened Versions
  import opened Selection
  import opened VersionSteps
  import opened CompactionSteps
  import opened CompactionLoop
  import opened OutputTables
  import opened InternalIter
  import opened Planning
  import opened Engine
  import Merger

  /** Read a merging iterator from start to end. */
  method Drain(it: Merger.MergingIterator) returns (out: seq<Entry>)
    requires it.Valid()
    modifies it, it.pos
    ensures it.Valid() && out == Merger.Merge(it.lists)
  {
    hide Merger.Merge, Merger.MergingIterator.Valid;
    ghost var m := Merger.Merge(it.lists);
    it.SeekToFirst();
    out := [];
    PositionBound(it);
    while it.Entry().Some?
      invariant it.Valid() && it.at <= |m| && out == m[..it.at]
      decreases |m| - it.at
    {
      HasCurrent(it);
      assert m[..it.at + 1] == m[..it.at] + [m[it.at]];
      out := out + [it.Entry().value];
      it.Next();
    }
    assert m[..|m|] == m;
  }

  lemma PositionBound(it: Merger.MergingIterator)
    requires it.Valid()
    ensures it.at <= |Merger.Merge(it.lists)|
  {
  }

  lemma HasCurrent(it: Merger.MergingIterator)
    requires it.Valid()
    ensures it.Entry().Some? <==> it.current.Some?
  {
  }

  lemma {:induction false} SelectOrdered(files: seq<File>, lo: Bound, hi: Bound)
    requires Ordered(files)
    ensures Ordered(Select(files, lo, hi))
  {
    hide Before, Overlaps, FileData.Valid;
    if files != [] {
      var n := |files| - 1;
      SelectOrdered(files[..n], lo, hi);
      forall f | f in Select(files[..n], lo, hi)
        ensures Before(f, files[n])
      {
        var k :| 0 <= k < n && files[k] == f;
      }
    }
  }

  lemma HereOrdered(level: nat, files: seq<File>, here: seq<File>)
    requires Ordered(files) && GoodInputs(level, files, here)
    ensures Ordered(here)
  {
    hide Disjoint, Closed;
    if level == 0 {
      var lo, hi :| Closed(files, lo, hi) && here == Select(files, lo, hi);
      SelectOrdered(files, lo, hi);
    }
  }

  lemma NextOrdered(level: nat, files: seq<File>, files1: seq<File>, here: seq<File>, next: seq<File>)
    requires Ordered(files1) && ReadyInputs(level, files, files1, here, next)
    ensures Ordered(next)
  {
    hide Ordered, IsSmallest, IsLargest, GoodInputs, LeavesNoOlder;
    var s, l :| IsSmallest(here, s) && IsLargest(here, l) && next == Select(files1, Some(s.user), Some(l.user));
    SelectOrdered(files1, Some(s.user), Some(l.user));
  }

  lemma InputsOk(v: Version, level: nat, here: seq<File>, next: seq<File>)
    requires VersionOk(v) && level + 1 < NUM_LEVELS && ReadyInputs(level, v[level], v[level + 1], here, next)
    ensures LevelOk(here, level) && LevelOk(next, level + 1)
  {
    assert LevelOk(v[level], level) && LevelOk(v[level + 1], level + 1);
    assert Ordered(v[level]) && Ordered(v[level + 1]) && GoodInputs(level, v[level], here);
    hide VersionOk, ReadyInputs, LevelOk, Ordered, GoodInputs;
    ReadyAreFiles(v, level, here, next);
    HereOrdered(level, v[level], here);
    NextOrdered(level, v[level], v[level + 1], here, next);
    FewerFilesOk(v[level], level, here);
    FewerFilesOk(v[level + 1], level + 1, next);
  }

  lemma InputsDisjoint(v: Version, level: nat, here: seq<File>, next: seq<File>)
    requires VersionOk(v) && level + 1 < NUM_LEVELS && ReadyInputs(level, v[level], v[level + 1], here, next)
    ensures EntriesOf(here) !! EntriesOf(next)
  {
    assert Above(EntriesOf(v[level]), EntriesOf(v[level + 1]));
    hide VersionOk, ReadyInputs, EntriesOf, Above;
    ReadyAreFiles(v, level, here, next);
    AboveApart(EntriesOf(v[level]), EntriesOf(v[level + 1]));
    TakenFromLevel(v[level], here);
    TakenFromLevel(v[level + 1], next);
  }

  /** `MakeInputIterator`: level-0 tables one by one, a deeper level as one concatenated run. */
  method MakeInputChildren(v: Version, level: nat, here: seq<File>, next: seq<File>) returns (lists: seq<seq<Entry>>)
    requires VersionOk(v) && level + 1 < NUM_LEVELS && ReadyInputs(level, v[level], v[level + 1], here, next)
    requires Distinct(EntriesOf(here) + EntriesOf(next))
    ensures Covers(lists, EntriesOf(here) + EntriesOf(next))
  {
    InputsOk(v, level, here, next);
    InputsDisjoint(v, level, here, next);
    DeepLevel(next, level + 1);
    NoChildren();
    hide VersionOk, ReadyInputs, LevelOk, EntriesOf, Covers, Sorted;
    DistinctPart(EntriesOf(here), EntriesOf(next));
    if level == 0 {
      lists := Level0Children([], {}, here);
    } else {
      DeepLevel(here, level);
      AddChild([], {}, Concat(here));
      lists := [] + [Concat(here)];
    }
    AddChild(lists, EntriesOf(here), Concat(next));
    lists := lists + [Concat(next)];
  }

  lemma NoChildren()
    ensures Covers([], {})
  {
  }

  lemma DistinctPart(a: set<Entry>, b: set<Entry>)
    requires Distinct(a + b)
    ensures Distinct({} + a) && {} + a == a
  {
  }

  lemma MergeIsInput(lists: seq<seq<Entry>>, entries: set<Entry>)
    requires Covers(lists, entries)
    ensures Sorted(Merger.Merge(lists)) && SetOf(Merger.Merge(lists)) == entries
    ensures Merger.AllSorted(lists) && Merger.NoSharedKeys(lists)
  {
    Merger.MergeSorted(lists);
  }

  lemma KeptIsSmall(input: seq<Entry>, files: seq<File>, smallest: nat, base: iset<UserKey>)
    requires Sorted(input) && SetOf(input) == EntriesOf(files)
    ensures
      var kept := Kept(input, |input|, smallest, base);
      Sorted(kept) && SmallSeqnos(kept) && SetOf(kept) <= SetOf(input)
  {
    KeptSorted(input, |input|, smallest, base);
    forall e | e in Kept(input, |input|, smallest, base)
      ensures e.ikey.seqno <= MAX_SEQUENCE && e in SetOf(input)
    {
      assert e in SetOf(input);
      var f :| f in files && e in f.entries;
    }
  }

  /** New files never tie with old ones and come in the set's order. */
  lemma NewFilesFit(v: Version, level: nat, outs: seq<File>, run: seq<Entry>, first: nat)
    requires |v| == NUM_LEVELS && level < NUM_LEVELS && NumbersBelow(v, first) && Holds(outs, run, first)
    ensures Ordered(outs) && NoTies(v[level], outs)
  {
    hide EntriesOf;
    forall i, j | 0 <= i < j < |outs|
      ensures Before(outs[i], outs[j])
    {
      EntryInRange(outs[i], outs[i].entries[0]);
    }
    HeldApart(outs, run, first);
  }

  lemma NewFilesOk(v: Version, level: nat, here: seq<File>, next: seq<File>, outs: seq<File>, run: seq<Entry>, first: nat)
    requires |v| == NUM_LEVELS && level + 1 < NUM_LEVELS && NumbersBelow(v, first) && Holds(outs, run, first)
    requires SetOf(run) <= EntriesOf(here) + EntriesOf(next)
    ensures OutputsOk(v, level, here, next, outs)
  {
    hide EntriesOf, Apart;
    HeldApart(outs, run, first);
  }

  /** The merged input of a planned compaction. */
  method MergeInputs(v: Version, j: Job) returns (input: seq<Entry>)
    requires VersionOk(v) && j.level + 1 < |v|
    requires ReadyInputs(j.level, v[j.level], v[j.level + 1], j.here, j.next)
    requires Distinct(EntriesOf(j.here) + EntriesOf(j.next))
    ensures MergedInput(j, input)
  {
    hide ReadyInputs, Distinct, EntriesOf, Sorted, Covers, Merger.Merge, Merger.MergingIterator.Valid;
    assert |v| == NUM_LEVELS;
    var lists := MakeInputChildren(v, j.level, j.here, j.next);
    ChildrenMergeable(lists, EntriesOf(j.here) + EntriesOf(j.next));
    var it := new Merger.MergingIterator(lists);
    input := Drain(it);
    MergeIsInput(lists, EntriesOf(j.here) + EntriesOf(j.next));
  }

  lemma ChildrenMergeable(lists: seq<seq<Entry>>, entries: set<Entry>)
    requires Covers(lists, entries)
    ensures Merger.AllSorted(lists) && Merger.NoSharedKeys(lists)
  {
  }

  /** The level + 2 files that meet the range of the inputs. */
  method Grandparents(v: Version, level: nat, inputs: seq<File>) returns (r: seq<File>)
    requires |v| == NUM_LEVELS && inputs != []
    ensures level + 2 >= NUM_LEVELS ==> r == []
    ensures level + 2 < NUM_LEVELS ==> MeetRange(v[level + 2], inputs, r)
  {
    r := [];
    if level + 2 < NUM_LEVELS {
      var start, limit := GetRange(inputs);
      ghost var lo, hi;
      r, lo, hi := GetOverlappingInputs(level + 2, v[level + 2], Some(start.user), Some(limit.user));
      OneMeetRange(v[level + 2], inputs, start, limit, r);
    }
  }

  /**
   Where the outputs end: none went on after reaching the size limit, none passes more than ten times that limit of
   the next level but one, and every table but the last that is smaller has used up that much of the files there.
   */
  ghost predicate WellCut(v: Version, level: nat, inputs: seq<File>, outs: seq<File>, fileBytes: seq<Entry> -> nat, limit: nat)
    requires |v| == NUM_LEVELS
  {
    && (forall o :: o in outs ==> o.size == fileBytes(o.entries) && CutInTime(o.entries, fileBytes, limit))
    && (level + 2 < NUM_LEVELS ==> forall o :: o in outs ==> FewPassed(v[level + 2], o.entries, 10 * limit))
    && (level + 2 < NUM_LEVELS ==> exists met ::
          MeetRange(v[level + 2], inputs, met) && CutsPaidFor(Tables(outs), fileBytes, limit, 10 * limit, TotalFileSize(met)))
    && (level + 2 >= NUM_LEVELS ==> CutsPaidFor(Tables(outs), fileBytes, limit, 10 * limit, 0))
  }

  lemma PassedIsMet(f: File, lo: UserKey, hi: UserKey, first: IKey, last: IKey)
    requires lo <= first.user && last.user <= hi
    ensures !Less(f.Largest(), first) && Less(f.Largest(), last) ==> Overlaps(f, Some(lo), Some(hi))
  {
    EntryInRange(f, f.entries[0]);
  }

  lemma BetweenSnoc(files: seq<File>, f: File, first: IKey, last: IKey)
    ensures Between(files + [f], first, last) ==
      Between(files, first, last) + if !Less(f.Largest(), first) && Less(f.Largest(), last) then [f] else []
  {
    assert (files + [f])[..|files|] == files;
  }

  lemma {:induction false} BetweenMet(files: seq<File>, n: nat, lo: UserKey, hi: UserKey, first: IKey, last: IKey)
    requires lo <= first.user && last.user <= hi && n <= |files|
    ensures Between(Select(files[..n], Some(lo), Some(hi)), first, last) == Between(files[..n], first, last)
  {
    hide *;
    if n > 0 {
      BetweenMet(files, n - 1, lo, hi, first, last);
      SelectSnoc(files, n - 1, Some(lo), Some(hi));
      assert files[..n] == files[..n - 1] + [files[n - 1]];
      BetweenSnoc(files[..n - 1], files[n - 1], first, last);
      var rest := Select(files[..n - 1], Some(lo), Some(hi));
      BetweenSnoc(rest, files[n - 1], first, last);
      PassedIsMet(files[n - 1], lo, hi, first, last);
      if !Overlaps(files[n - 1], Some(lo), Some(hi)) {
        assert rest + [] == rest && Between(rest, first, last) + [] == Between(rest, first, last);
      }
    } else {
      assert files[..n] == [];
      NothingMet(Some(lo), Some(hi), first, last);
    }
  }

  lemma NothingMet(lo: Bound, hi: Bound, first: IKey, last: IKey)
    ensures Select([], lo, hi) == [] && Between([], first, last) == []
  {
  }

  /** A file that ends between two keys of the inputs meets their range, so nothing is missed by looking only at those. */
  lemma FewOfAll(files: seq<File>, inputs: seq<File>, met: seq<File>, t: seq<Entry>, limit: nat)
    requires MeetRange(files, inputs, met) && FewPassed(met, t, limit) && (forall e :: e in t ==> e in EntriesOf(inputs))
    ensures FewPassed(files, t, limit)
  {
    hide Select, Between, IsSmallest, IsLargest, EntriesOf, TotalFileSize;
    var s, l :| IsSmallest(inputs, s) && IsLargest(inputs, l) && met == Select(files, Some(s.user), Some(l.user));
    EntryBounds(inputs, t[0], s, l);
    EntryBounds(inputs, t[|t| - 1], s, l);
    BetweenMet(files, |files|, s.user, l.user, t[0].ikey, t[|t| - 1].ikey);
    assert files[..|files|] == files;
  }

  lemma EntryBounds(inputs: seq<File>, e: Entry, s: IKey, l: IKey)
    requires IsSmallest(inputs, s) && IsLargest(inputs, l) && e in EntriesOf(inputs)
    ensures s.user <= e.ikey.user <= l.user
  {
    var f :| f in inputs && e in f.entries;
    EntryInRange(f, e);
  }

  lemma MetDisjoint(files: seq<File>, inputs: seq<File>, met: seq<File>)
    requires Disjoint(files) && MeetRange(files, inputs, met)
    ensures Disjoint(met)
  {
    hide Select, IsSmallest, IsLargest, Disjoint;
    var s, l :| IsSmallest(inputs, s) && IsLargest(inputs, l) && met == Select(files, Some(s.user), Some(l.user));
    var i, j := SelectIsRun(files, Some(s.user), Some(l.user));
    PartDisjoint(files, i, j);
  }

  lemma PartDisjoint(files: seq<File>, i: nat, j: nat)
    requires Disjoint(files) && i <= j <= |files|
    ensures Disjoint(files[i..j])
  {
  }

  lemma NoneDisjoint()
    ensures Disjoint([]) && TotalFileSize([]) == 0
  {
  }

  lemma TableOf(outs: seq<File>, tables: seq<seq<Entry>>, o: File)
    requires Tables(outs) == tables && o in outs
    ensures o.entries in tables
  {
    var i :| 0 <= i < |outs| && outs[i] == o;
    assert tables[i] == o.entries;
  }

  lemma InFile(outs: seq<File>, o: File)
    requires o in outs
    ensures forall e :: e in o.entries ==> e in EntriesOf(outs)
  {
  }

  /** What the loop says of its tables holds of the files. */
  lemma TablesWellCut(v: Version, level: nat, inputs: seq<File>, grandparents: seq<File>, tables: seq<seq<Entry>>,
      outs: seq<File>, fileBytes: seq<Entry> -> nat, limit: nat)
    requires |v| == NUM_LEVELS && Tables(outs) == tables && EntriesOf(outs) <= EntriesOf(inputs)
    requires if level + 2 < NUM_LEVELS then MeetRange(v[level + 2], inputs, grandparents) else grandparents == []
    requires SizedBy(outs, fileBytes)
    requires forall t :: t in tables ==> CutInTime(t, fileBytes, limit) && FewPassed(grandparents, t, 10 * limit)
    requires CutsPaidFor(tables, fileBytes, limit, 10 * limit, TotalFileSize(grandparents))
    ensures WellCut(v, level, inputs, outs, fileBytes, limit)
  {
    hide Tables, EntriesOf, MeetRange, CutInTime, FewPassed, CutsPaidFor, TotalFileSize;
    NoneDisjoint();
    forall o | o in outs
      ensures CutInTime(o.entries, fileBytes, limit)
      ensures level + 2 < NUM_LEVELS ==> FewPassed(v[level + 2], o.entries, 10 * limit)
    {
      TableOf(outs, tables, o);
      InFile(outs, o);
      if level + 2 < NUM_LEVELS {
        FewOfAll(v[level + 2], inputs, grandparents, o.entries, 10 * limit);
      }
    }
  }

  lemma TablesCut(tables: seq<seq<Entry>>, run: seq<Entry>, fileBytes: seq<Entry> -> nat, limit: nat)
    requires Flatten(tables) == run && forall t :: t in tables ==> CutInTime(t, fileBytes, limit)
    ensures Cuts(tables, run)
  {
  }

  /** The merge loop and the tables it writes. */
  method WriteOutputs(v: Version, j: Job, nextFile: nat, fileBytes: seq<Entry> -> nat, maxFileSize: nat)
    returns (ghost input: seq<Entry>, outs: seq<File>)
    requires GoodVersion(v) && j.level + 1 < |v| && j.smallest < MAX_SEQUENCE
    requires ReadyInputs(j.level, v[j.level], v[j.level + 1], j.here, j.next)
    requires Distinct(EntriesOf(j.here) + EntriesOf(j.next))
    ensures MergedInput(j, input)
    ensures Holds(outs, Kept(input, |input|, j.smallest, BaseKeys(v, j.level)), nextFile)
    ensures SetOf(Kept(input, |input|, j.smallest, BaseKeys(v, j.level))) <= EntriesOf(j.here) + EntriesOf(j.next)
    ensures exists merged :: MergedInput(j, merged) && Holds(outs, Kept(merged, |merged|, j.smallest, BaseKeys(v, j.level)), nextFile)
    ensures |v| == NUM_LEVELS && WellCut(v, j.level, j.here + j.next, outs, fileBytes, maxFileSize)
  {
    hide GoodVersion, Disjoint, ReadyInputs, Distinct, EntriesOf, Sorted, Kept, Holds, SmallSeqnos, SetOf, BaseKeys;
    hide WellCut, Tables, MeetRange, FewPassed, CutInTime, CutsPaidFor;
    LevelsGood(v);
    OrdersGood(v);
    InputsNotEmpty(j.level, v[j.level], v[j.level + 1], j.here, j.next);
    var merged := MergeInputs(v, j);
    input := merged;
    var grandparents := Grandparents(v, j.level, j.here + j.next);
    NoneDisjoint();
    if j.level + 2 < NUM_LEVELS {
      MetDisjoint(v[j.level + 2], j.here + j.next, grandparents);
    }
    var c := new Compaction(j.level, v, grandparents, 10 * maxFileSize);
    var tables := DoCompactionWork(c, merged, j.smallest, fileBytes, maxFileSize);
    InputsOnFiles(j, merged);
    KeptIsSmall(merged, j.here + j.next, j.smallest, BaseKeys(v, j.level));
    TablesCut(tables, Kept(merged, |merged|, j.smallest, BaseKeys(v, j.level)), fileBytes, maxFileSize);
    outs := MakeFiles(tables, Kept(merged, |merged|, j.smallest, BaseKeys(v, j.level)), nextFile, fileBytes);
    HeldApart(outs, Kept(merged, |merged|, j.smallest, BaseKeys(v, j.level)), nextFile);
    TablesWellCut(v, j.level, j.here + j.next, grandparents, tables, outs, fileBytes, maxFileSize);
  }

  lemma InputsOnFiles(j: Job, input: seq<Entry>)
    requires MergedInput(j, input)
    ensures Sorted(input) && SetOf(input) == EntriesOf(j.here + j.next) == EntriesOf(j.here) + EntriesOf(j.next)
  {
    hide Sorted;
    assert EntriesOf(j.here + j.next) == EntriesOf(j.here) + EntriesOf(j.next);
  }

  /** `InstallCompactionResults`: delete the inputs, add the outputs one level down. */
  method InstallOutputs(v: Version, j: Job, nextFile: nat, outs: seq<File>, ghost run: seq<Entry>) returns (v': Version)
    requires GoodVersion(v) && NumbersBelow(v, nextFile) && j.level + 1 < |v|
    requires ReadyInputs(j.level, v[j.level], v[j.level + 1], j.here, j.next)
    requires Holds(outs, run, nextFile) && SetOf(run) <= EntriesOf(j.here) + EntriesOf(j.next)
    ensures Replaces(v, j.level, j.here, j.next, outs, v')
  {
    hide GoodVersion, Disjoint, ReadyInputs, EntriesOf, Rebuilt, Holds, Ordered, OutputsOk, NumbersBelow, SetOf, NoTies;
    LevelsGood(v);
    NewFilesFit(v, j.level + 1, outs, run, nextFile);
    NewFilesOk(v, j.level, j.here, j.next, outs, run, nextFile);
    NothingTies(v[j.level]);
    AreInOrder(v[j.level]);
    AreInOrder(v[j.level + 1]);
    var upper := SaveLevel(v[j.level], Numbers(j.here), []);
    var lower := SaveLevel(v[j.level + 1], Numbers(j.next), outs);
    v' := v[j.level := upper][j.level + 1 := lower];
  }

  lemma NothingTies(files: seq<File>)
    ensures NoTies(files, []) && Ordered([])
  {
  }

  /** The new version has, instead of the inputs, fresh files with just the entries that the merge loop keeps. */
  ghost predicate Compacted(v: Version, j: Job, nextFile: nat, fileBytes: seq<Entry> -> nat, maxFileSize: nat,
      input: seq<Entry>, outs: seq<File>, v': Version, nextFile': nat)
  {
    && MergedInput(j, input) && EntriesOf(outs) == SetOf(Kept(input, |input|, j.smallest, BaseKeys(v, j.level)))
    && nextFile' == nextFile + |outs| && (forall f :: f in outs ==> nextFile <= f.number < nextFile')
    && Replaces(v, j.level, j.here, j.next, outs, v')
    && |v| == NUM_LEVELS && WellCut(v, j.level, j.here + j.next, outs, fileBytes, maxFileSize)
  }

  /** Run a planned compaction and give the version it installs. */
  method RunCompaction(v: Version, j: Job, nextFile: nat, fileBytes: seq<Entry> -> nat, maxFileSize: nat)
    returns (v': Version, nextFile': nat, ghost input: seq<Entry>, ghost outs: seq<File>)
    requires GoodVersion(v) && NumbersBelow(v, nextFile) && j.level + 1 < |v| && j.smallest < MAX_SEQUENCE
    requires ReadyInputs(j.level, v[j.level], v[j.level + 1], j.here, j.next)
    requires Distinct(EntriesOf(j.here) + EntriesOf(j.next))
    ensures MergedInput(j, input)
    ensures EntriesOf(outs) == SetOf(Kept(input, |input|, j.smallest, BaseKeys(v, j.level)))
    ensures nextFile' == nextFile + |outs| && forall f :: f in outs ==> nextFile <= f.number < nextFile'
    ensures Replaces(v, j.level, j.here, j.next, outs, v')
    ensures |v| == NUM_LEVELS && WellCut(v, j.level, j.here + j.next, outs, fileBytes, maxFileSize)
    ensures exists merged, files :: Compacted(v, j, nextFile, fileBytes, maxFileSize, merged, files, v', nextFile')
  {
    hide *;
    var files;
    input, files := WriteOutputs(v, j, nextFile, fileBytes, maxFileSize);
    outs := files;
    HeldApart(files, Kept(input, |input|, j.smallest, BaseKeys(v, j.level)), nextFile);
    nextFile' := nextFile + |files|;
    v' := InstallOutputs(v, j, nextFile, files, Kept(input, |input|, j.smallest, BaseKeys(v, j.level)));
    IsCompacted(v, j, nextFile, fileBytes, maxFileSize, input, outs, v', nextFile');
  }

  lemma IsCompacted(v: Version, j: Job, nextFile: nat, fileBytes: seq<Entry> -> nat, maxFileSize: nat, input: seq<Entry>,
      outs: seq<File>, v': Version, nextFile': nat)
    requires MergedInput(j, input) && EntriesOf(outs) == SetOf(Kept(input, |input|, j.smallest, BaseKeys(v, j.level)))
    requires nextFile' == nextFile + |outs| && forall f :: f in outs ==> nextFile <= f.number < nextFile'
    requires Replaces(v, j.level, j.here, j.next, outs, v')
    requires |v| == NUM_LEVELS && WellCut(v, j.level, j.here + j.next, outs, fileBytes, maxFileSize)
    ensures Compacted(v, j, nextFile, fileBytes, maxFileSize, input, outs, v', nextFile')
  {
    hide MergedInput, EntriesOf, SetOf, Kept, BaseKeys, Replaces, WellCut;
  }
}
